/**
 * What each administrative request is allowed to do and what it leaves, said of the role
 * and membership tables themselves.
 */
module AccessMeaning {
  import opened Wrappers
  import opened RoleSlugs
  import opened Text
  import opened AccessRules

  // ---------------------------------------------------------------------------
  // Giving
  // ---------------------------------------------------------------------------

  /** The role the caller's membership points at has the permission. */
  ghost predicate Holds(s: State, caller: nat, key: string) {
    caller in s.members && s.members[caller].role in s.roles && key in s.roles[s.members[caller].role].permissions
  }

  /** A blank key asks for nothing; any other has to be known, held, and not parent portal access. */
  ghost predicate MayGive(c: Catalogue, s: State, caller: nat, key: string) {
    Trim(key) == "" || (Trim(key) in c.known && Trim(key) != "portal.access" && Holds(s, caller, Trim(key)))
  }

  /** Portal access only comes with the standard Parent role; the rest has to be the caller's to give. */
  ghost predicate MayPut(c: Catalogue, s: State, caller: nat, role: Role) {
    && ("portal.access" in role.permissions ==> role.slug == "PARENT" && role.isSystem)
    && (forall key | key in role.permissions && key != "portal.access" :: MayGive(c, s, caller, key))
  }

  /** Of what was asked, trimmed, what the permission table has. */
  ghost predicate Granted(c: Catalogue, asked: set<string>, granted: set<string>) {
    forall key :: key in granted <==> key != "" && key in c.installed && exists k :: k in asked && Trim(k) == key
  }

  lemma GrantExactly(c: Catalogue, s: State, caller: nat, asked: set<string>)
    ensures MayGrant(c, Held(s, caller), asked).Some? <==> forall key | key in asked :: MayGive(c, s, caller, key)
    ensures MayGrant(c, Held(s, caller), asked).Some? ==>
      Granted(c, asked, MayGrant(c, Held(s, caller), asked).value)
  {
    var requested := Requested(asked);
    forall key | key in requested ensures exists k :: k in asked && Trim(k) == key && key != "" {
      var k :| k in asked && Trim(k) == key;
    }
    if forall key | key in asked :: MayGive(c, s, caller, key) {
      forall key | key in requested ensures key in c.known && key != PORTAL_ACCESS && key in Held(s, caller) {
        var k :| k in asked && Trim(k) == key;
        assert MayGive(c, s, caller, k);
      }
    }
    if MayGrant(c, Held(s, caller), asked).Some? {
      forall key | key in asked ensures MayGive(c, s, caller, key) {
        if Trim(key) != "" { assert Trim(key) in requested; }
      }
    }
  }

  lemma AssignExactly(c: Catalogue, s: State, caller: nat, role: Role)
    ensures MayAssign(c, Held(s, caller), role) <==> MayPut(c, s, caller, role)
  {
    GrantExactly(c, s, caller, role.permissions);
    GrantExactly(c, s, caller, role.permissions - {PORTAL_ACCESS});
  }

  // ---------------------------------------------------------------------------
  // Roles
  // ---------------------------------------------------------------------------

  /** What a new role is to carry: a copy of a role's permissions, or the keys listed. */
  ghost predicate Asks(s: State, op: Op, key: string)
    requires op.CreateRole?
  {
    if op.copyFrom.Some? then op.copyFrom.value in s.roles && key in s.roles[op.copyFrom.value].permissions
    else key in op.keys
  }

  ghost predicate OthersKept(before: map<nat, Role>, after: map<nat, Role>, id: nat) {
    forall r | r != id :: (r in after <==> r in before) && (r in after ==> after[r] == before[r])
  }

  /** The new role's permissions are, of those asked for, the ones the table has. */
  ghost predicate CarriesAsked(c: Catalogue, s: State, op: Op, role: Role)
    requires op.CreateRole?
  {
    forall key :: key in role.permissions <==> key != "" && key in c.installed && exists k :: Asks(s, op, k) && Trim(k) == key
  }

  /** A role of the school's own, under a slug nobody has, made from the name. */
  ghost predicate Created(c: Catalogue, s: State, op: Op, after: State)
    requires op.CreateRole?
  {
    && after.members == s.members && OthersKept(s.roles, after.roles, op.id)
    && op.id in after.roles && !after.roles[op.id].isSystem
    && (forall r | r in s.roles :: s.roles[r].slug != after.roles[op.id].slug)
    && after.roles[op.id].slug !in SYSTEM_SLUGS
    && (exists k :: FirstAt(Base(op.upperName), Slugs(s), k) && after.roles[op.id].slug == Candidate(Base(op.upperName), k))
    && CarriesAsked(c, s, op, after.roles[op.id])
  }

  /**
   * Creating a role is refused exactly when the role to copy is not there or something that
   * is asked for is not the caller's to give; otherwise the role carries what was asked for.
   */
  lemma CreateExactly(c: Catalogue, s: State, op: Op)
    requires op.CreateRole?
    ensures Perform(c, s, op).Some? <==>
      && (op.copyFrom.Some? ==> op.copyFrom.value in s.roles) && op.id !in s.roles
      && forall key | Asks(s, op, key) :: MayGive(c, s, op.caller, key)
    ensures Perform(c, s, op).Some? ==> Created(c, s, op, Perform(c, s, op).value)
  {
    if op.copyFrom.None? || op.copyFrom.value in s.roles {
      var asked := if op.copyFrom.Some? then s.roles[op.copyFrom.value].permissions else Elements(op.keys);
      assert forall key :: key in asked <==> Asks(s, op, key);
      GrantExactly(c, s, op.caller, asked);
      if Perform(c, s, op).Some? {
        var after := Perform(c, s, op).value;
        SomeFirst(Base(op.upperName), Slugs(s));
        var granted := MayGrant(c, Held(s, op.caller), asked).value;
        assert after.roles[op.id].permissions == granted && Granted(c, asked, granted);
        forall r | r in s.roles ensures s.roles[r].slug != after.roles[op.id].slug {
          assert s.roles[r].slug in Slugs(s);
        }
      }
    }
  }

  /** A copy of a role as the tables keep them carries all of it. */
  lemma CopyIsWhole(c: Catalogue, s: State, op: Op)
    requires op.CreateRole? && op.copyFrom.Some? && Perform(c, s, op).Some? && Seeded(c) && WellFormed(c, s)
    ensures op.copyFrom.value in s.roles && op.id in Perform(c, s, op).value.roles
    ensures Perform(c, s, op).value.roles[op.id].permissions == s.roles[op.copyFrom.value].permissions
  {
    CreateExactly(c, s, op);
    var copied, role := s.roles[op.copyFrom.value].permissions, Perform(c, s, op).value.roles[op.id];
    assert CarriesAsked(c, s, op, role);
    forall key ensures key in role.permissions <==> key in copied {
      if key in role.permissions {
        var k :| Asks(s, op, k) && Trim(k) == key;
        assert k in copied && k in c.installed;
      }
      if key in copied { assert key in c.installed && Asks(s, op, key) && Trim(key) == key; }
    }
  }

  /** Any role but the proprietor's gets, of what was asked for, what the table has; refused unless all of it is the caller's to give. */
  lemma SetPermissionsExactly(c: Catalogue, s: State, op: Op)
    requires op.SetPermissions?
    ensures Perform(c, s, op).Some? <==>
      && op.role in s.roles && s.roles[op.role].slug != "PROPRIETOR"
      && forall key | key in op.keys :: MayGive(c, s, op.caller, key)
    ensures Perform(c, s, op).Some? ==>
      var after := Perform(c, s, op).value;
      && after.members == s.members && OthersKept(s.roles, after.roles, op.role)
      && op.role in after.roles
      && after.roles[op.role].slug == s.roles[op.role].slug && after.roles[op.role].isSystem == s.roles[op.role].isSystem
      && Granted(c, Elements(op.keys), after.roles[op.role].permissions)
  {
    assert forall key :: key in Elements(op.keys) <==> key in op.keys;
    GrantExactly(c, s, op.caller, Elements(op.keys));
  }

  /** A role of the school's own that nobody has is removed, and nothing else changes. */
  lemma RemoveExactly(c: Catalogue, s: State, op: Op)
    requires op.RemoveRole?
    ensures Perform(c, s, op).Some? <==>
      op.role in s.roles && !s.roles[op.role].isSystem && forall m | m in s.members :: s.members[m].role != op.role
    ensures Perform(c, s, op).Some? ==>
      var after := Perform(c, s, op).value;
      after.members == s.members && op.role !in after.roles && OthersKept(s.roles, after.roles, op.role)
  {
  }

  // ---------------------------------------------------------------------------
  // Memberships
  // ---------------------------------------------------------------------------

  ghost predicate MembersKept(before: map<nat, Membership>, after: map<nat, Membership>, member: nat) {
    forall m | m != member :: (m in after <==> m in before) && (m in after ==> after[m] == before[m])
  }

  /**
   * Everybody in a role other than the proprietor's goes to another the caller may give,
   * unless the caller is among them.
   */
  lemma ReassignExactly(c: Catalogue, s: State, op: Op)
    requires op.Reassign?
    ensures Perform(c, s, op).Some? <==>
      && op.source in s.roles && op.target in s.roles && op.source != op.target && op.caller in s.members
      && (forall m | m in s.members && s.members[m].role == op.source :: s.members[m].user != s.members[op.caller].user)
      && MayPut(c, s, op.caller, s.roles[op.target]) && s.roles[op.source].slug != "PROPRIETOR"
    ensures Perform(c, s, op).Some? ==>
      var after := Perform(c, s, op).value;
      && after.roles == s.roles && after.members.Keys == s.members.Keys
      && forall m | m in s.members ::
           if s.members[m].role == op.source
           then after.members[m] == Membership(s.members[m].user, op.target, s.members[m].status)
           else after.members[m] == s.members[m]
  {
    if op.target in s.roles { AssignExactly(c, s, op.caller, s.roles[op.target]); }
  }

  /**
   * An invitation to a role the caller may give: a new membership for a user without one,
   * and the same membership again for one invited before or revoked.
   */
  lemma InviteExactly(c: Catalogue, s: State, op: Op)
    requires op.Invite? && forall a, b | a in s.members && b in s.members && s.members[a].user == s.members[b].user :: a == b
    ensures Perform(c, s, op).Some? <==>
      && op.role in s.roles && MayPut(c, s, op.caller, s.roles[op.role])
      && (forall m | m in s.members && s.members[m].user == op.user ::
            s.members[m].status == INVITED || s.members[m].status == REVOKED)
      && ((forall m | m in s.members :: s.members[m].user != op.user) ==> op.id !in s.members)
    ensures Perform(c, s, op).Some? ==>
      var after := Perform(c, s, op).value;
      && after.roles == s.roles
      && exists m ::
        && m in after.members && after.members[m] == Membership(op.user, op.role, INVITED)
        && MembersKept(s.members, after.members, m)
        && (if m in s.members then s.members[m].user == op.user
            else m == op.id && forall k | k in s.members :: s.members[k].user != op.user)
  {
    if op.role in s.roles { AssignExactly(c, s, op.caller, s.roles[op.role]); }
    if Perform(c, s, op).Some? {
      var m := if MemberOf(s, op.user) then MembershipOf(s, op.user) else op.id;
      var after := Perform(c, s, op).value;
      assert after.members[m] == Membership(op.user, op.role, INVITED) && MembersKept(s.members, after.members, m);
    }
  }

  /** Two active proprietors, so that taking one away leaves somebody. */
  ghost predicate TwoProprietors(s: State) {
    exists a, b :: a != b && ActiveProprietor(s, a) && ActiveProprietor(s, b)
  }

  ghost predicate ActiveProprietor(s: State, m: nat) {
    && m in s.members && s.members[m].status == ACTIVE
    && s.members[m].role in s.roles && s.roles[s.members[m].role].slug == "PROPRIETOR"
  }

  ghost predicate IsProprietor(s: State, m: nat) {
    m in s.members && s.members[m].role in s.roles && s.roles[s.members[m].role].slug == "PROPRIETOR"
  }

  lemma NotLastExactly(s: State, member: nat)
    requires member in s.members
    ensures NotLastProprietor(s, member) <==> (IsProprietor(s, member) ==> TwoProprietors(s))
  {
    var all := ActiveProprietors(s);
    forall m: nat ensures m in all <==> ActiveProprietor(s, m) {}
    if |all| > 1 {
      var a :| a in all;
      if all <= {a} { AtMostOne(all, a); }
      var b :| b in all && b !in {a};
      assert ActiveProprietor(s, a) && ActiveProprietor(s, b);
    }
    if TwoProprietors(s) {
      var a, b :| a != b && ActiveProprietor(s, a) && ActiveProprietor(s, b);
      assert all == all - {a, b} + {a, b} && |{a, b}| == 2;
    }
  }

  /**
   * A change of role or status: another role only for somebody else, only one the caller may
   * give, and not of the last proprietor; a suspension not of the last proprietor either.
   */
  lemma UpdateExactly(c: Catalogue, s: State, op: Op)
    requires op.Update?
    ensures Perform(c, s, op).Some? <==>
      && op.member in s.members && op.caller in s.members
      && (op.newRole.Some? && op.newRole.value != s.members[op.member].role ==>
            && op.newRole.value in s.roles && s.members[op.member].user != s.members[op.caller].user
            && MayPut(c, s, op.caller, s.roles[op.newRole.value])
            && (IsProprietor(s, op.member) ==> TwoProprietors(s)))
      && (op.suspend == Some(true) && IsProprietor(s, op.member) ==> TwoProprietors(s))
    ensures Perform(c, s, op).Some? ==>
      var was, after := s.members[op.member], Perform(c, s, op).value;
      && after.roles == s.roles && MembersKept(s.members, after.members, op.member) && op.member in after.members
      && after.members[op.member].user == was.user
      && (op.newRole.Some? ==> after.members[op.member].role == op.newRole.value)
      && (op.newRole.None? ==> after.members[op.member].role == was.role)
      && (op.suspend == Some(true) ==> after.members[op.member].status == SUSPENDED)
      && (op.suspend == Some(false) ==> after.members[op.member].status == ACTIVE)
      && (op.suspend.None? ==> after.members[op.member].status == was.status)
  {
    if op.member in s.members { NotLastExactly(s, op.member); }
    if op.newRole.Some? && op.newRole.value in s.roles { AssignExactly(c, s, op.caller, s.roles[op.newRole.value]); }
  }

  /** Whose status alone becomes this. */
  ghost predicate Became(s: State, after: State, member: nat, status: Status)
    requires member in s.members
  {
    && after.roles == s.roles && MembersKept(s.members, after.members, member) && member in after.members
    && after.members[member] == Membership(s.members[member].user, s.members[member].role, status)
  }

  /** Any membership but the last proprietor's is revoked; for a parent's, only a Parent membership; accepting makes one active. */
  lemma StatusExactly(c: Catalogue, s: State, op: Op)
    requires op.Revoke? || op.RevokeParent? || op.Accept?
    ensures Perform(c, s, op).Some? <==>
      && op.member in s.members
      && (op.Revoke? && IsProprietor(s, op.member) ==> TwoProprietors(s))
      && (op.RevokeParent? ==> s.members[op.member].role in s.roles && s.roles[s.members[op.member].role].slug == "PARENT")
    ensures Perform(c, s, op).Some? ==>
      Became(s, Perform(c, s, op).value, op.member, if op.Accept? then ACTIVE else REVOKED)
  {
    if op.member in s.members { NotLastExactly(s, op.member); }
  }
}
