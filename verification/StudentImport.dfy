/**
 * Importing students from a file: every row is checked, seats go to otherwise-valid rows
 * in file order, parents are matched or created once each, and the writing is one
 * transaction.
 */
module StudentImport {
  import opened Wrappers
  import opened NumberSequence
  import opened Enrolment

  datatype Parent = Parent(phone: string, email: Option<string>)

  /** bad: an earlier check refused the row. parentBad: it refused the parent's fields. */
  datatype Row = Row(arm: Option<nat>, bad: bool, parent: Option<Parent>, parentBad: bool, supplied: Option<string>, year: nat)

  /** A parent on file, as the lookup by phone variants and emails returned it. */
  datatype Guardian = Guardian(phone: string, email: Option<string>)

  datatype Found = Found(id: nat, guardian: Guardian)

  datatype Options = Options(atomic: bool, mayLink: bool, mayCreate: bool)

  /** Where a row's parent comes from; Unusable is an error on the row. */
  datatype Ref = NoParent | Unusable | Existing(id: nat) | New(key: string)

  // ---------------------------------------------------------------------------
  // Parents
  // ---------------------------------------------------------------------------

  /** byPhone and byEmail: the last parent listed wins. */
  function ByPhone(found: seq<Found>, n: nat, canonical: string -> string, key: string): Option<nat>
    requires n <= |found|
  {
    if n == 0 then None
    else if canonical(found[n - 1].guardian.phone) == key then Some(found[n - 1].id)
    else ByPhone(found, n - 1, canonical, key)
  }

  function ByEmail(found: seq<Found>, n: nat, email: string): Option<nat>
    requires n <= |found|
  {
    if n == 0 then None
    else if found[n - 1].guardian.email == Some(email) then Some(found[n - 1].id)
    else ByEmail(found, n - 1, email)
  }

  /** The parent on file a row's parent is matched to; None and false when the two matches disagree. */
  function Matched(found: seq<Found>, canonical: string -> string, parent: Parent): (Option<nat>, bool) {
    var phone := ByPhone(found, |found|, canonical, canonical(parent.phone));
    var email := if parent.email.Some? then ByEmail(found, |found|, parent.email.value) else None;
    if phone.Some? && email.Some? && phone != email then (None, false)
    else (if phone.Some? then phone else email, true)
  }

  predicate HasParent(row: Row) { row.parent.Some? && !row.parentBad }

  /** The parents to create, and who first gave each new email. */
  datatype Pending = Pending(parents: map<string, Parent>, owners: set<string>)

  function Resolve(row: Row, pending: Pending, found: seq<Found>, canonical: string -> string, o: Options): (Ref, Pending) {
    if !HasParent(row) then (NoParent, pending)
    else
      var parent := row.parent.value;
      var key := canonical(parent.phone);
      var (on, agree) := Matched(found, canonical, parent);
      if !agree then (Unusable, pending)
      else if on.Some? then (if o.mayLink then Existing(on.value) else Unusable, pending)
      else if !o.mayCreate then (Unusable, pending)
      else if key in pending.parents then (New(key), pending)
      else if parent.email.Some? && parent.email.value in pending.owners then (Unusable, pending)
      else (New(key), Pending(pending.parents[key := parent],
                              if parent.email.Some? then pending.owners + {parent.email.value} else pending.owners))
  }

  function PendingAfter(rows: seq<Row>, n: nat, found: seq<Found>, canonical: string -> string, o: Options): Pending
    requires n <= |rows|
  {
    if n == 0 then Pending(map[], {})
    else Resolve(rows[n - 1], PendingAfter(rows, n - 1, found, canonical, o), found, canonical, o).1
  }

  function RefOf(rows: seq<Row>, i: nat, found: seq<Found>, canonical: string -> string, o: Options): Ref
    requires i < |rows|
  {
    Resolve(rows[i], PendingAfter(rows, i, found, canonical, o), found, canonical, o).0
  }

  method ResolveGuardians(rows: seq<Row>, found: seq<Found>, canonical: string -> string, o: Options)
    returns (refs: seq<Ref>, pending: Pending)
    ensures |refs| == |rows| && forall i | 0 <= i < |rows| :: refs[i] == RefOf(rows, i, found, canonical, o)
    ensures pending == PendingAfter(rows, |rows|, found, canonical, o)
  {
    refs, pending := [], Pending(map[], {});
    for i := 0 to |rows|
      invariant |refs| == i && pending == PendingAfter(rows, i, found, canonical, o)
      invariant forall k | 0 <= k < i :: refs[k] == RefOf(rows, k, found, canonical, o)
    {
      var row := rows[i];
      if row.parent.None? || row.parentBad {
        refs := refs + [NoParent];
        continue;
      }
      var parent := row.parent.value;
      var key := canonical(parent.phone);
      var (on, agree) := Matched(found, canonical, parent);
      if !agree {
        refs := refs + [Unusable];
      } else if on.Some? {
        refs := refs + [if o.mayLink then Existing(on.value) else Unusable];
      } else if !o.mayCreate {
        refs := refs + [Unusable];
      } else if key in pending.parents {
        refs := refs + [New(key)];
      } else if parent.email.Some? && parent.email.value in pending.owners {
        refs := refs + [Unusable];
      } else {
        pending := Pending(pending.parents[key := parent],
                           if parent.email.Some? then pending.owners + {parent.email.value} else pending.owners);
        refs := refs + [New(key)];
      }
    }
  }

  /** Every pending parent is filed under its own phone, and its email, if it has one, is its alone. */
  ghost predicate PendingOk(p: Pending, found: seq<Found>, canonical: string -> string) {
    && (forall key | key in p.parents ::
          canonical(p.parents[key].phone) == key && ByPhone(found, |found|, canonical, key) == None)
    && (forall key | key in p.parents && p.parents[key].email.Some? :: p.parents[key].email.value in p.owners)
    && (forall a, b | a in p.parents && b in p.parents && a != b && p.parents[a].email.Some? ::
          p.parents[a].email != p.parents[b].email)
  }

  lemma {:induction false} PendingHolds(rows: seq<Row>, n: nat, found: seq<Found>, canonical: string -> string, o: Options)
    requires n <= |rows|
    ensures PendingOk(PendingAfter(rows, n, found, canonical, o), found, canonical)
  {
    if n > 0 { PendingHolds(rows, n - 1, found, canonical, o); }
  }

  lemma {:induction false} PendingGrows(rows: seq<Row>, i: nat, n: nat, found: seq<Found>, canonical: string -> string, o: Options)
    requires i < n <= |rows| && RefOf(rows, i, found, canonical, o).New?
    ensures RefOf(rows, i, found, canonical, o).key in PendingAfter(rows, n, found, canonical, o).parents
    ensures RefOf(rows, i, found, canonical, o).key == canonical(rows[i].parent.value.phone)
  {
    if i < n - 1 { PendingGrows(rows, i, n - 1, found, canonical, o); }
  }

  // ---------------------------------------------------------------------------
  // Who a row's parent is
  // ---------------------------------------------------------------------------

  predicate HasPhone(found: seq<Found>, canonical: string -> string, id: nat, key: string) {
    exists k | 0 <= k < |found| :: found[k].id == id && canonical(found[k].guardian.phone) == key
  }

  predicate HasEmail(found: seq<Found>, id: nat, email: Option<string>) {
    email.Some? && exists k | 0 <= k < |found| :: found[k].id == id && found[k].guardian.email == email
  }

  /** Parents on file have their own id, phone and email. */
  ghost predicate OnFileApart(found: seq<Found>, canonical: string -> string) {
    forall a, b | 0 <= a < b < |found| ::
      && found[a].id != found[b].id
      && canonical(found[a].guardian.phone) != canonical(found[b].guardian.phone)
      && (found[a].guardian.email.Some? ==> found[a].guardian.email != found[b].guardian.email)
  }

  lemma {:induction false} PhoneIs(found: seq<Found>, n: nat, canonical: string -> string, key: string)
    requires n <= |found| && OnFileApart(found, canonical)
    ensures match ByPhone(found, n, canonical, key)
            case Some(id) => HasPhone(found, canonical, id, key)
            case None => forall k | 0 <= k < n :: canonical(found[k].guardian.phone) != key
  {
    if n > 0 { PhoneIs(found, n - 1, canonical, key); }
  }

  lemma {:induction false} EmailIs(found: seq<Found>, n: nat, email: string)
    requires n <= |found|
    ensures match ByEmail(found, n, email)
            case Some(id) => HasEmail(found, id, Some(email))
            case None => forall k | 0 <= k < n :: found[k].guardian.email != Some(email)
  {
    if n > 0 { EmailIs(found, n - 1, email); }
  }

  /** On file, one parent at most has a phone, and one at most an email. */
  lemma OneEach(found: seq<Found>, canonical: string -> string, key: string, email: Option<string>, a: nat, b: nat)
    requires OnFileApart(found, canonical)
    ensures HasPhone(found, canonical, a, key) && HasPhone(found, canonical, b, key) ==> a == b
    ensures HasEmail(found, a, email) && HasEmail(found, b, email) ==> a == b
  {
  }

  /** What the two lookups find. */
  lemma MatchIs(found: seq<Found>, canonical: string -> string, parent: Parent)
    requires OnFileApart(found, canonical)
    ensures var (on, agree) := Matched(found, canonical, parent);
      && (!agree <==> exists a: nat, b: nat :: a != b && HasPhone(found, canonical, a, canonical(parent.phone))
                                     && HasEmail(found, b, parent.email))
      && (forall id: nat :: Belongs(found, canonical, parent, id) <==> agree && on == Some(id))
  {
    var key := canonical(parent.phone);
    PhoneIs(found, |found|, canonical, key);
    if parent.email.Some? { EmailIs(found, |found|, parent.email.value); }
    forall a: nat, b: nat
      ensures HasPhone(found, canonical, a, key) && HasPhone(found, canonical, b, key) ==> a == b
      ensures HasEmail(found, a, parent.email) && HasEmail(found, b, parent.email) ==> a == b
    {
      OneEach(found, canonical, key, parent.email, a, b);
    }
    var phone := ByPhone(found, |found|, canonical, key);
    var email := if parent.email.Some? then ByEmail(found, |found|, parent.email.value) else None;
    assert phone.Some? ==> HasPhone(found, canonical, phone.value, key);
    assert email.Some? ==> HasEmail(found, email.value, parent.email);
  }

  /** The parent on file is this one: the phone's, or with nobody's phone the email's, and no other has the email. */
  ghost predicate Belongs(found: seq<Found>, canonical: string -> string, parent: Parent, id: nat) {
    && (HasPhone(found, canonical, id, canonical(parent.phone))
        || ((forall other: nat :: !HasPhone(found, canonical, other, canonical(parent.phone))) && HasEmail(found, id, parent.email)))
    && forall other: nat :: HasEmail(found, other, parent.email) ==> other == id
  }

  ghost predicate OnFile(found: seq<Found>, canonical: string -> string, parent: Parent) {
    exists id: nat :: HasPhone(found, canonical, id, canonical(parent.phone)) || HasEmail(found, id, parent.email)
  }

  /** The first row of the file to bring this new parent. */
  ghost predicate Brings(rows: seq<Row>, j: nat, found: seq<Found>, canonical: string -> string, o: Options, key: string)
    requires j < |rows|
  {
    && RefOf(rows, j, found, canonical, o) == New(key) && rows[j].parent.Some?
    && forall k | 0 <= k < j :: RefOf(rows, k, found, canonical, o) != New(key)
  }

  /** What is pending is what the rows so far have brought. */
  ghost predicate PendingSays(rows: seq<Row>, n: nat, found: seq<Found>, canonical: string -> string, o: Options)
    requires n <= |rows|
  {
    var pending := PendingAfter(rows, n, found, canonical, o);
    && (forall key :: key in pending.parents <==> exists j :: 0 <= j < n && RefOf(rows, j, found, canonical, o) == New(key))
    && (forall j, key | 0 <= j < n && Brings(rows, j, found, canonical, o, key) ::
          key in pending.parents && pending.parents[key] == rows[j].parent.value)
    && (forall e :: e in pending.owners <==>
          exists j, key :: 0 <= j < n && Brings(rows, j, found, canonical, o, key) && rows[j].parent.value.email == Some(e))
  }

  lemma {:induction false} PendingIsSaid(rows: seq<Row>, n: nat, found: seq<Found>, canonical: string -> string, o: Options)
    requires n <= |rows|
    ensures PendingSays(rows, n, found, canonical, o)
  {
    hide RefOf, PendingAfter;
    if n == 0 {
      NothingPending(rows, found, canonical, o);
    } else {
      PendingIsSaid(rows, n - 1, found, canonical, o);
      PendingNext(rows, n - 1, found, canonical, o);
      var before, after := PendingAfter(rows, n - 1, found, canonical, o), PendingAfter(rows, n, found, canonical, o);
      var ref := RefOf(rows, n - 1, found, canonical, o);
      if ref.New? && ref.key !in before.parents {
        assert Brings(rows, n - 1, found, canonical, o, ref.key);
        BroughtEmails(rows, n - 1, found, canonical, o);
      } else {
        SameEmails(rows, n - 1, found, canonical, o);
      }
    }
  }

  lemma NothingPending(rows: seq<Row>, found: seq<Found>, canonical: string -> string, o: Options)
    ensures PendingAfter(rows, 0, found, canonical, o) == Pending(map[], {})
  {
  }

  /** What one row adds: itself, when it brings a new parent. */
  lemma PendingNext(rows: seq<Row>, i: nat, found: seq<Found>, canonical: string -> string, o: Options)
    requires i < |rows|
    ensures var ref := RefOf(rows, i, found, canonical, o);
      var before, after := PendingAfter(rows, i, found, canonical, o), PendingAfter(rows, i + 1, found, canonical, o);
      && (ref.New? ==> rows[i].parent.Some?)
      && after == if ref.New? && ref.key !in before.parents then
           Pending(before.parents[ref.key := rows[i].parent.value],
                   if rows[i].parent.value.email.Some? then before.owners + {rows[i].parent.value.email.value}
                   else before.owners)
         else before
  {
    hide Matched;
  }

  lemma SameEmails(rows: seq<Row>, i: nat, found: seq<Found>, canonical: string -> string, o: Options)
    requires i < |rows| && PendingSays(rows, i, found, canonical, o)
    requires var ref := RefOf(rows, i, found, canonical, o);
      !(ref.New? && ref.key !in PendingAfter(rows, i, found, canonical, o).parents)
    ensures forall key :: !Brings(rows, i, found, canonical, o, key)
  {
  }

  lemma BroughtEmails(rows: seq<Row>, i: nat, found: seq<Found>, canonical: string -> string, o: Options)
    requires i < |rows| && RefOf(rows, i, found, canonical, o).New? && rows[i].parent.Some?
    ensures forall key :: Brings(rows, i, found, canonical, o, key) ==> key == RefOf(rows, i, found, canonical, o).key
  {
  }

  /**
   * A row's parent is one on file exactly when linking is allowed and that is who has the
   * phone, or the email with nobody having the phone, and no other parent has the email. The
   * row is refused when two parents have them, when linking or creating is needed and not
   * allowed, and when its email came with an earlier new parent of another phone; otherwise
   * the parent is a new one, under its phone.
   */
  lemma RefExactly(rows: seq<Row>, i: nat, found: seq<Found>, canonical: string -> string, o: Options)
    requires i < |rows| && OnFileApart(found, canonical)
    ensures var ref := RefOf(rows, i, found, canonical, o);
      && (ref.NoParent? <==> rows[i].parent.None? || rows[i].parentBad)
      && (!ref.NoParent? ==>
            var parent := rows[i].parent.value;
            var key := canonical(parent.phone);
            && (forall id: nat :: ref == Existing(id) <==> o.mayLink && Belongs(found, canonical, parent, id))
            && (ref.Unusable? <==>
                  || (exists a: nat, b: nat :: a != b && HasPhone(found, canonical, a, key) && HasEmail(found, b, parent.email))
                  || (OnFile(found, canonical, parent) && !o.mayLink)
                  || (!OnFile(found, canonical, parent) && !o.mayCreate)
                  || (!OnFile(found, canonical, parent) && BroughtElsewhere(rows, i, found, canonical, o)))
            && (ref.New? ==> ref.key == key))
  {
    hide Matched, HasPhone, HasEmail, PendingAfter;
    if HasParent(rows[i]) {
      MatchIs(found, canonical, rows[i].parent.value);
      PendingIsSaid(rows, i, found, canonical, o);
      OnFileIs(found, canonical, rows[i].parent.value);
    }
  }

  lemma OnFileIs(found: seq<Found>, canonical: string -> string, parent: Parent)
    requires OnFileApart(found, canonical)
    ensures Matched(found, canonical, parent).1 ==>
      (OnFile(found, canonical, parent) <==> Matched(found, canonical, parent).0.Some?)
  {
    hide Matched;
    MatchIs(found, canonical, parent);
    var (on, agree) := Matched(found, canonical, parent);
    if agree && on.Some? { assert Belongs(found, canonical, parent, on.value); }
    if agree && OnFile(found, canonical, parent) {
      var id :| HasPhone(found, canonical, id, canonical(parent.phone)) || HasEmail(found, id, parent.email);
      if other :| HasPhone(found, canonical, other, canonical(parent.phone)) {
        assert Belongs(found, canonical, parent, other);
      } else {
        forall other | HasEmail(found, other, parent.email) ensures other == id {
          OneEach(found, canonical, canonical(parent.phone), parent.email, id, other);
        }
        assert Belongs(found, canonical, parent, id);
      }
    }
  }

  /** Nobody earlier brings this phone, and an earlier row brings the email with another. */
  ghost predicate BroughtElsewhere(rows: seq<Row>, i: nat, found: seq<Found>, canonical: string -> string, o: Options)
    requires i < |rows| && rows[i].parent.Some?
  {
    && rows[i].parent.value.email.Some?
    && (forall j | 0 <= j < i :: RefOf(rows, j, found, canonical, o) != New(canonical(rows[i].parent.value.phone)))
    && exists j, key ::
         0 <= j < i && Brings(rows, j, found, canonical, o, key) && rows[j].parent.value.email == rows[i].parent.value.email
  }

  // ---------------------------------------------------------------------------
  // Seats
  // ---------------------------------------------------------------------------

  /** Fine but for a seat. */
  predicate Otherwise(rows: seq<Row>, refs: seq<Ref>, i: nat)
    requires i < |rows| == |refs|
  {
    !rows[i].bad && !refs[i].Unusable?
  }

  /** How many of the first n rows, otherwise valid, are for this arm. */
  function Wanting(rows: seq<Row>, refs: seq<Ref>, n: nat, arm: nat): nat
    requires n <= |rows| == |refs|
  {
    if n == 0 then 0
    else Wanting(rows, refs, n - 1, arm) + if Otherwise(rows, refs, n - 1) && rows[n - 1].arm == Some(arm) then 1 else 0
  }

  predicate Fills(s: School, arm: nat, taken: nat) {
    arm in s.arms && s.arms[arm].Some? && RollOf(s, arm) + taken >= s.arms[arm].value
  }

  /** Unusable for want of a seat: the roll and the earlier otherwise-valid rows fill the arm. */
  predicate Full(s: School, rows: seq<Row>, refs: seq<Ref>, i: nat)
    requires i < |rows| == |refs|
  {
    Otherwise(rows, refs, i) && rows[i].arm.Some? && Fills(s, rows[i].arm.value, Wanting(rows, refs, i, rows[i].arm.value))
  }

  function Min(a: int, b: int): int { if a <= b then a else b }

  /** The counter holds the seats handed out: as many as were wanted, up to what was free. */
  ghost predicate Counted(s: School, rows: seq<Row>, refs: seq<Ref>, n: nat, used: map<nat, nat>)
    requires n <= |rows| == |refs|
  {
    forall arm: nat | arm in s.arms && s.arms[arm].Some? ::
      (if arm in used then used[arm] else 0)
      == if s.arms[arm].value <= RollOf(s, arm) then 0
         else Min(Wanting(rows, refs, n, arm), s.arms[arm].value - RollOf(s, arm))
  }

  /** The pass over the rows, one counter per arm. */
  method CheckCapacity(s: School, rows: seq<Row>, refs: seq<Ref>) returns (full: seq<bool>)
    requires |rows| == |refs|
    ensures |full| == |rows| && forall i | 0 <= i < |rows| :: full[i] <==> Full(s, rows, refs, i)
  {
    full := [];
    var used: map<nat, nat> := map[];
    for i := 0 to |rows|
      invariant |full| == i && Counted(s, rows, refs, i, used)
      invariant forall k | 0 <= k < i :: full[k] <==> Full(s, rows, refs, k)
    {
      var row := rows[i];
      var isFull := false;
      ghost var before := used;
      if row.arm.Some? && row.arm.value in s.arms && s.arms[row.arm.value].Some? && !row.bad && !refs[i].Unusable? {
        var arm := row.arm.value;
        var active := RollOf(s, arm);
        var taken := active + if arm in used then used[arm] else 0;
        if taken >= s.arms[arm].value {
          isFull := true;
        } else {
          used := used[arm := (if arm in used then used[arm] else 0) + 1];
        }
      }
      SeatTaken(s, rows, refs, i, before, used, isFull);
      full := full + [isFull];
    }
  }

  lemma SeatTaken(s: School, rows: seq<Row>, refs: seq<Ref>, i: nat, before: map<nat, nat>, after: map<nat, nat>, isFull: bool)
    requires i < |rows| == |refs| && Counted(s, rows, refs, i, before)
    requires var row := rows[i];
      if row.arm.Some? && row.arm.value in s.arms && s.arms[row.arm.value].Some? && Otherwise(rows, refs, i) then
        var arm := row.arm.value;
        var used := if arm in before then before[arm] else 0;
        isFull == (RollOf(s, arm) + used >= s.arms[arm].value) && after == if isFull then before else before[arm := used + 1]
      else !isFull && after == before
    ensures isFull <==> Full(s, rows, refs, i)
    ensures Counted(s, rows, refs, i + 1, after)
  {
    if rows[i].arm.Some? && rows[i].arm.value in s.arms && s.arms[rows[i].arm.value].Some? {
      var mine := rows[i].arm.value;
      assert mine in s.arms && s.arms[mine].Some?;
    }
  }

  // ---------------------------------------------------------------------------
  // Which rows are written
  // ---------------------------------------------------------------------------

  predicate Valid(s: School, rows: seq<Row>, refs: seq<Ref>, i: nat)
    requires i < |rows| == |refs|
  {
    Otherwise(rows, refs, i) && !Full(s, rows, refs, i)
  }

  function ValidRows(s: School, rows: seq<Row>, refs: seq<Ref>, n: nat): (r: seq<nat>)
    requires n <= |rows| == |refs|
    ensures forall k | 0 <= k < |r| :: r[k] < n && Valid(s, rows, refs, r[k])
    ensures forall j, k | 0 <= j < k < |r| :: r[j] < r[k]
  {
    if n == 0 then []
    else
      var rest := ValidRows(s, rows, refs, n - 1);
      if Valid(s, rows, refs, n - 1) then rest + [n - 1] else rest
  }

  /** ATOMIC writes every row or none, PARTIAL the valid ones. */
  function ToWrite(s: School, rows: seq<Row>, refs: seq<Ref>, o: Options): (r: seq<nat>)
    requires |rows| == |refs|
    ensures forall k | 0 <= k < |r| :: r[k] < |rows| && Valid(s, rows, refs, r[k])
  {
    var valid := ValidRows(s, rows, refs, |rows|);
    if o.atomic && |valid| < |rows| then [] else valid
  }

  function Places(rows: seq<Row>, picked: seq<nat>): (r: seq<Option<nat>>)
    requires forall k | 0 <= k < |picked| :: picked[k] < |rows|
    ensures |r| == |picked|
  {
    seq(|picked|, k requires 0 <= k < |picked| => rows[picked[k]].arm)
  }

  lemma {:induction false} ValidRowsAll(s: School, rows: seq<Row>, refs: seq<Ref>, n: nat, i: nat)
    requires n <= |rows| == |refs| && i < n
    ensures i in ValidRows(s, rows, refs, n) <==> Valid(s, rows, refs, i)
    ensures |ValidRows(s, rows, refs, n)| <= n
    ensures |ValidRows(s, rows, refs, n)| == n ==> forall k | 0 <= k < n :: ValidRows(s, rows, refs, n)[k] == k
  {
    if n > 1 { ValidRowsAll(s, rows, refs, n - 1, if i < n - 1 then i else 0); }
  }

  /** An ATOMIC import writes all of the rows, in order, or nothing; and all only when every row is valid. */
  lemma AllOrNone(s: School, rows: seq<Row>, refs: seq<Ref>, o: Options)
    requires o.atomic && |rows| == |refs|
    ensures ToWrite(s, rows, refs, o) == [] || ToWrite(s, rows, refs, o) == seq(|rows|, i => i)
    ensures rows != [] ==> (ToWrite(s, rows, refs, o) != [] <==> forall i | 0 <= i < |rows| :: Valid(s, rows, refs, i))
  {
    var valid := ValidRows(s, rows, refs, |rows|);
    if rows != [] {
      ValidRowsAll(s, rows, refs, |rows|, 0);
      if |valid| == |rows| {
        assert valid == seq(|rows|, i => i);
        forall i | 0 <= i < |rows| ensures Valid(s, rows, refs, i) { assert valid[i] == i; }
      } else if forall i | 0 <= i < |rows| :: Valid(s, rows, refs, i) {
        AllValid(s, rows, refs, |rows|);
      }
    }
  }

  lemma {:induction false} AllValid(s: School, rows: seq<Row>, refs: seq<Ref>, n: nat)
    requires n <= |rows| == |refs| && forall i | 0 <= i < n :: Valid(s, rows, refs, i)
    ensures |ValidRows(s, rows, refs, n)| == n
  {
    if n > 0 { AllValid(s, rows, refs, n - 1); }
  }

  /** A PARTIAL import writes exactly the valid rows. */
  lemma WritesTheValid(s: School, rows: seq<Row>, refs: seq<Ref>, o: Options, i: nat)
    requires !o.atomic && i < |rows| == |refs|
    ensures i in ToWrite(s, rows, refs, o) <==> Valid(s, rows, refs, i)
  {
    ValidRowsAll(s, rows, refs, |rows|, i);
  }

  // ---------------------------------------------------------------------------
  // The recount
  // ---------------------------------------------------------------------------

  /** The seats a file takes in an arm: what was wanted, up to what was free. */
  lemma {:induction false} SeatsTaken(s: School, rows: seq<Row>, refs: seq<Ref>, n: nat, arm: nat)
    requires n <= |rows| == |refs| && arm in s.arms && s.arms[arm].Some? && RollOf(s, arm) <= s.arms[arm].value
    ensures Incoming(Places(rows, ValidRows(s, rows, refs, n)), |ValidRows(s, rows, refs, n)|, arm)
            == Min(Wanting(rows, refs, n, arm), s.arms[arm].value - RollOf(s, arm))
  {
    hide Valid, Otherwise, Incoming, Places, RollOf;
    if n > 0 {
      SeatsTaken(s, rows, refs, n - 1, arm);
      SeatsNext(s, rows, refs, n - 1, arm);
      if rows[n - 1].arm == Some(arm) { ValidWhenRoom(s, rows, refs, n - 1, arm); }
    } else {
      NobodyIncoming(rows, arm);
    }
  }

  lemma NobodyIncoming(rows: seq<Row>, arm: nat)
    ensures Incoming(Places(rows, []), 0, arm) == 0
  {
  }

  /** The next row of the file takes a seat when it is valid and is for this arm. */
  lemma SeatsNext(s: School, rows: seq<Row>, refs: seq<Ref>, i: nat, arm: nat)
    requires i < |rows| == |refs|
    ensures var before, after := ValidRows(s, rows, refs, i), ValidRows(s, rows, refs, i + 1);
      Incoming(Places(rows, after), |after|, arm)
      == Incoming(Places(rows, before), |before|, arm)
         + if Valid(s, rows, refs, i) && rows[i].arm == Some(arm) then 1 else 0
  {
    hide Valid;
    var rest := ValidRows(s, rows, refs, i);
    if Valid(s, rows, refs, i) {
      assert ValidRows(s, rows, refs, i + 1) == rest + [i];
      IncomingAgrees(Places(rows, rest + [i]), Places(rows, rest), |rest|, arm);
    }
  }

  /** A row for this arm is valid exactly when it is otherwise valid and the seats are not used up. */
  lemma ValidWhenRoom(s: School, rows: seq<Row>, refs: seq<Ref>, i: nat, arm: nat)
    requires i < |rows| == |refs| && arm in s.arms && s.arms[arm].Some? && rows[i].arm == Some(arm)
    ensures Valid(s, rows, refs, i) <==>
      Otherwise(rows, refs, i) && RollOf(s, arm) + Wanting(rows, refs, i, arm) < s.arms[arm].value
  {
  }

  lemma {:induction false} IncomingAgrees(a: seq<Option<nat>>, b: seq<Option<nat>>, n: nat, arm: nat)
    requires n <= |a| && n <= |b| && forall i | 0 <= i < n :: a[i] == b[i]
    ensures Incoming(a, n, arm) == Incoming(b, n, arm)
  {
    if n > 0 { IncomingAgrees(a, b, n - 1, arm); }
  }

  /**
   * The check in file order hands out no seat that the recount under the locks would
   * refuse: if the arms have not changed in between, the recount passes.
   */
  lemma RecountPasses(s: School, rows: seq<Row>, refs: seq<Ref>, o: Options)
    requires Seated(s) && |rows| == |refs|
    requires forall i | 0 <= i < |rows| && rows[i].arm.Some? :: rows[i].arm.value in s.arms
    ensures AllFit(s, Places(rows, ToWrite(s, rows, refs, o)))
  {
    var picked := ToWrite(s, rows, refs, o);
    var places := Places(rows, picked);
    forall i | 0 <= i < |places| && places[i].Some?
      ensures HasRoom(s, places[i].value, Incoming(places, |places|, places[i].value))
    {
      var arm := places[i].value;
      assert rows[picked[i]].arm == Some(arm);
      if s.arms[arm].Some? { SeatsTaken(s, rows, refs, |rows|, arm); }
    }
  }

  // ---------------------------------------------------------------------------
  // Numbers
  // ---------------------------------------------------------------------------

  /** How many of the first n picked rows need a number generated for this year. */
  function Needing(rows: seq<Row>, picked: seq<nat>, n: nat, year: nat): nat
    requires n <= |picked| && forall k | 0 <= k < |picked| :: picked[k] < |rows|
  {
    if n == 0 then 0
    else
      var row := rows[picked[n - 1]];
      Needing(rows, picked, n - 1, year) + if row.supplied.None? && row.year == year then 1 else 0
  }

  function NumberFor(s: School, rows: seq<Row>, picked: seq<nat>, k: nat): string
    requires k < |picked| && forall k | 0 <= k < |picked| :: picked[k] < |rows|
  {
    var row := rows[picked[k]];
    if row.supplied.Some? then row.supplied.value
    else FormatAdmission(s.prefix, row.year, NextOf(s, row.year) + Needing(rows, picked, k, row.year))
  }

  function Numbers(s: School, rows: seq<Row>, picked: seq<nat>): (r: seq<string>)
    requires forall k | 0 <= k < |picked| :: picked[k] < |rows|
    ensures |r| == |picked|
  {
    seq(|picked|, k requires 0 <= k < |picked| => NumberFor(s, rows, picked, k))
  }

  method FindNext(s: School, year: nat) returns (next: nat)
    ensures next == NextOf(s, year)
  {
    var read: seq<string> := [];
    for i := 0 to |s.students|
      invariant read == ReadNumbers(s.students, i, year)
    {
      if StartsWith(s.students[i].number, YearLead(year)) { read := read + [s.students[i].number]; }
    }
    next := NextSequence(read, year, ADMISSION_WIDTH);
  }

  /** Every year a picked row needs has its counter. */
  ghost predicate Covers(rows: seq<Row>, picked: seq<nat>, n: nat, next: map<nat, nat>)
    requires n <= |picked| && forall k | 0 <= k < |picked| :: picked[k] < |rows|
  {
    forall j | 0 <= j < n && rows[picked[j]].supplied.None? :: rows[picked[j]].year in next
  }

  /** The counters after the first n picked rows. */
  ghost predicate Counters(s: School, rows: seq<Row>, picked: seq<nat>, n: nat, next: map<nat, nat>)
    requires n <= |picked| && forall k | 0 <= k < |picked| :: picked[k] < |rows|
  {
    forall y | y in next :: next[y] == NextOf(s, y) + Needing(rows, picked, n, y)
  }

  /** One read per admission year. */
  method ReadYears(s: School, rows: seq<Row>, picked: seq<nat>) returns (next: map<nat, nat>)
    requires forall k | 0 <= k < |picked| :: picked[k] < |rows|
    ensures Counters(s, rows, picked, 0, next) && Covers(rows, picked, |picked|, next)
  {
    hide NextOf;
    next := map[];
    for k := 0 to |picked|
      invariant Counters(s, rows, picked, 0, next) && Covers(rows, picked, k, next)
    {
      var row := rows[picked[k]];
      if row.supplied.None? && row.year !in next {
        var first := FindNext(s, row.year);
        next := next[row.year := first];
      }
    }
  }

  /** One number: the counter of its year, moved on. */
  method TakeNumber(s: School, rows: seq<Row>, picked: seq<nat>, k: nat, next: map<nat, nat>)
    returns (number: string, after: map<nat, nat>)
    requires k < |picked| && forall k | 0 <= k < |picked| :: picked[k] < |rows|
    requires Counters(s, rows, picked, k, next) && Covers(rows, picked, |picked|, next)
    ensures number == NumberFor(s, rows, picked, k)
    ensures Counters(s, rows, picked, k + 1, after) && Covers(rows, picked, |picked|, after)
  {
    var row := rows[picked[k]];
    after := next;
    if row.supplied.Some? {
      number := row.supplied.value;
    } else {
      var sequence := next[row.year];
      after := next[row.year := sequence + 1];
      number := FormatAdmission(s.prefix, row.year, sequence);
    }
  }

  method AllocateNumbers(s: School, rows: seq<Row>, picked: seq<nat>) returns (numbers: seq<string>)
    requires forall k | 0 <= k < |picked| :: picked[k] < |rows|
    ensures numbers == Numbers(s, rows, picked)
  {
    var next := ReadYears(s, rows, picked);
    numbers := [];
    for k := 0 to |picked|
      invariant numbers == Numbers(s, rows, picked)[..k]
      invariant Counters(s, rows, picked, k, next) && Covers(rows, picked, |picked|, next)
    {
      var number;
      number, next := TakeNumber(s, rows, picked, k, next);
      numbers := numbers + [number];
    }
    assert numbers == Numbers(s, rows, picked);
  }

  lemma {:induction false} NeedingGrows(rows: seq<Row>, picked: seq<nat>, j: nat, k: nat, year: nat)
    requires j <= k <= |picked| && forall k | 0 <= k < |picked| :: picked[k] < |rows|
    ensures Needing(rows, picked, j, year) <= Needing(rows, picked, k, year)
  {
    if j < k { NeedingGrows(rows, picked, j, k - 1, year); }
  }

  /** A generated number reads back as its year, and as the next free sequence plus those given before it. */
  lemma GeneratedReads(s: School, rows: seq<Row>, picked: seq<nat>, k: nat)
    requires k < |picked| && OneLine(s.prefix) && forall k | 0 <= k < |picked| :: picked[k] < |rows|
    requires rows[picked[k]].supplied.None? && FourDigitYear(rows[picked[k]].year)
    ensures var year := rows[picked[k]].year;
      Parse(NumberFor(s, rows, picked, k), ADMISSION_WIDTH)
      == Some((year, NextOf(s, year) + Needing(rows, picked, k, year)))
  {
    hide Parse, FormatAdmission, NextOf, Needing;
    var year := rows[picked[k]].year;
    ParseAdmission(s.prefix, year, NextOf(s, year) + Needing(rows, picked, k, year));
  }

  /** Later rows of a year are given later sequences. */
  lemma LaterIsHigher(s: School, rows: seq<Row>, picked: seq<nat>, j: nat, k: nat, year: nat)
    requires j < k < |picked| && forall k | 0 <= k < |picked| :: picked[k] < |rows|
    requires rows[picked[j]].supplied.None? && rows[picked[j]].year == year
    ensures Needing(rows, picked, j, year) < Needing(rows, picked, k, year)
  {
    NeedingGrows(rows, picked, j + 1, k, year);
  }

  /** No two rows are given the same generated number. */
  lemma GeneratedDiffer(s: School, rows: seq<Row>, picked: seq<nat>, j: nat, k: nat)
    requires j < k < |picked| && OneLine(s.prefix) && forall k | 0 <= k < |picked| :: picked[k] < |rows|
    requires rows[picked[j]].supplied.None? && FourDigitYear(rows[picked[j]].year)
    requires rows[picked[k]].supplied.None? && FourDigitYear(rows[picked[k]].year)
    ensures NumberFor(s, rows, picked, j) != NumberFor(s, rows, picked, k)
  {
    GeneratedReads(s, rows, picked, j);
    GeneratedReads(s, rows, picked, k);
    LaterIsHigher(s, rows, picked, j, k, rows[picked[j]].year);
  }

  /** No generated number is one that was read for its year. */
  lemma GeneratedIsNew(s: School, rows: seq<Row>, picked: seq<nat>, k: nat)
    requires k < |picked| && OneLine(s.prefix) && forall k | 0 <= k < |picked| :: picked[k] < |rows|
    requires rows[picked[k]].supplied.None? && FourDigitYear(rows[picked[k]].year)
    ensures NumberFor(s, rows, picked, k) !in ReadNumbers(s.students, |s.students|, rows[picked[k]].year)
  {
    GeneratedReads(s, rows, picked, k);
    var year := rows[picked[k]].year;
    PastTheHighest(ReadNumbers(s.students, |s.students|, year), year, ADMISSION_WIDTH, NumberFor(s, rows, picked, k));
  }

  // ---------------------------------------------------------------------------
  // Writing
  // ---------------------------------------------------------------------------

  /** The keys of the parents that the picked rows need, each once, in order. */
  function Needed(refs: seq<Ref>, picked: seq<nat>, n: nat): (r: seq<string>)
    requires n <= |picked| && forall k | 0 <= k < |picked| :: picked[k] < |refs|
    ensures forall i, j | 0 <= i < j < |r| :: r[i] != r[j]
  {
    if n == 0 then []
    else
      var rest := Needed(refs, picked, n - 1);
      var ref := refs[picked[n - 1]];
      if ref.New? && ref.key !in rest then rest + [ref.key] else rest
  }

  lemma {:induction false} NeededAre(refs: seq<Ref>, picked: seq<nat>, n: nat, key: string)
    requires n <= |picked| && forall k | 0 <= k < |picked| :: picked[k] < |refs|
    ensures key in Needed(refs, picked, n) <==> exists k :: 0 <= k < n && refs[picked[k]] == New(key)
  {
    if n > 0 { NeededAre(refs, picked, n - 1, key); }
  }

  /** A student and a parent: an existing one by id, a new one by its place among those created. */
  datatype Link = ToExisting(id: nat) | ToCreated(index: nat) | NoLink

  datatype Written = Written(numbers: seq<string>, places: seq<Option<nat>>, created: seq<Parent>, links: seq<Link>)

  /** The place of a phone among the created parents, as the returned rows are indexed by canonical phone. */
  function PlaceOf(created: seq<Parent>, n: nat, canonical: string -> string, key: string): Option<nat>
    requires n <= |created|
  {
    if n == 0 then None
    else if canonical(created[n - 1].phone) == key then Some(n - 1)
    else PlaceOf(created, n - 1, canonical, key)
  }

  function LinkFor(ref: Ref, created: seq<Parent>, canonical: string -> string): Link {
    match ref
    case NoParent => NoLink
    case Unusable => NoLink
    case Existing(id) => ToExisting(id)
    case New(key) =>
      match PlaceOf(created, |created|, canonical, key)
      case None => NoLink
      case Some(i) => ToCreated(i)
  }

  function Created(needed: seq<string>, pending: Pending): (r: seq<Parent>)
    requires forall i | 0 <= i < |needed| :: needed[i] in pending.parents
    ensures |r| == |needed|
  {
    seq(|needed|, i requires 0 <= i < |needed| => pending.parents[needed[i]])
  }

  /** writeOnce: the loops over the rows to be written, after the recount. */
  method WriteRows(s: School, rows: seq<Row>, refs: seq<Ref>, picked: seq<nat>, pending: Pending, canonical: string -> string)
    returns (w: Written)
    requires |rows| == |refs| && forall k | 0 <= k < |picked| :: picked[k] < |rows|
    requires forall k | 0 <= k < |picked| && refs[picked[k]].New? :: refs[picked[k]].key in pending.parents
    ensures w.numbers == Numbers(s, rows, picked) && w.places == Places(rows, picked)
    ensures forall i | 0 <= i < |Needed(refs, picked, |picked|)| :: Needed(refs, picked, |picked|)[i] in pending.parents
    ensures w.created == Created(Needed(refs, picked, |picked|), pending)
    ensures |w.links| == |picked|
    ensures forall k | 0 <= k < |picked| :: w.links[k] == LinkFor(refs[picked[k]], w.created, canonical)
  {
    var numbers := AllocateNumbers(s, rows, picked);
    var needed: seq<string> := [];
    var places: seq<Option<nat>> := [];
    for k := 0 to |picked|
      invariant needed == Needed(refs, picked, k) && places == Places(rows, picked)[..k]
      invariant forall i | 0 <= i < |needed| :: needed[i] in pending.parents
    {
      var ref := refs[picked[k]];
      if ref.New? && ref.key !in needed { needed := needed + [ref.key]; }
      places := places + [rows[picked[k]].arm];
    }
    var created: seq<Parent> := [];
    for i := 0 to |needed|
      invariant created == Created(needed, pending)[..i]
    {
      created := created + [pending.parents[needed[i]]];
    }
    assert created == Created(needed, pending);
    var links: seq<Link> := [];
    for k := 0 to |picked|
      invariant |links| == k && forall j | 0 <= j < k :: links[j] == LinkFor(refs[picked[j]], created, canonical)
    {
      links := links + [LinkFor(refs[picked[k]], created, canonical)];
    }
    w := Written(numbers, places, created, links);
  }

  lemma {:induction false} PlaceIs(created: seq<Parent>, n: nat, canonical: string -> string, i: nat)
    requires i < n <= |created|
    requires forall a, b | 0 <= a < b < |created| :: canonical(created[a].phone) != canonical(created[b].phone)
    ensures PlaceOf(created, n, canonical, canonical(created[i].phone)) == Some(i)
  {
    if i < n - 1 { PlaceIs(created, n - 1, canonical, i); }
  }

  function Refs(rows: seq<Row>, found: seq<Found>, canonical: string -> string, o: Options): (r: seq<Ref>)
    ensures |r| == |rows|
  {
    seq(|rows|, i requires 0 <= i < |rows| => RefOf(rows, i, found, canonical, o))
  }

  /** The rows an import writes. */
  function Picked(s: School, rows: seq<Row>, found: seq<Found>, canonical: string -> string, o: Options): (r: seq<nat>)
    ensures forall k | 0 <= k < |r| :: r[k] < |rows|
  {
    ToWrite(s, rows, Refs(rows, found, canonical, o), o)
  }

  /** What an import writes, from the rows as resolved. */
  ghost predicate Imports(s: School, rows: seq<Row>, found: seq<Found>, canonical: string -> string, o: Options, w: Written) {
    var refs := Refs(rows, found, canonical, o);
    var picked := Picked(s, rows, found, canonical, o);
    var pending := PendingAfter(rows, |rows|, found, canonical, o);
    && |w.links| == |picked| && w.places == Places(rows, picked) && w.numbers == Numbers(s, rows, picked)
    && (forall i | 0 <= i < |Needed(refs, picked, |picked|)| :: Needed(refs, picked, |picked|)[i] in pending.parents)
    && w.created == Created(Needed(refs, picked, |picked|), pending)
    && (forall k | 0 <= k < |picked| :: w.links[k] == LinkFor(refs[picked[k]], w.created, canonical))
  }

  /** The rows without an error, and by mode those to be written. */
  method PickRows(s: School, rows: seq<Row>, refs: seq<Ref>, full: seq<bool>, o: Options) returns (picked: seq<nat>)
    requires |full| == |rows| == |refs| && forall i | 0 <= i < |rows| :: full[i] <==> Full(s, rows, refs, i)
    ensures picked == ToWrite(s, rows, refs, o)
  {
    picked := [];
    for i := 0 to |rows|
      invariant picked == ValidRows(s, rows, refs, i)
    {
      if !rows[i].bad && !refs[i].Unusable? && !full[i] { picked := picked + [i]; }
    }
    if o.atomic && |picked| < |rows| { picked := []; }
  }

  lemma PickedArePending(s: School, rows: seq<Row>, found: seq<Found>, canonical: string -> string, o: Options, k: nat)
    requires k < |Picked(s, rows, found, canonical, o)|
    requires RefOf(rows, Picked(s, rows, found, canonical, o)[k], found, canonical, o).New?
    ensures RefOf(rows, Picked(s, rows, found, canonical, o)[k], found, canonical, o).key
            in PendingAfter(rows, |rows|, found, canonical, o).parents
  {
    PendingGrows(rows, Picked(s, rows, found, canonical, o)[k], |rows|, found, canonical, o);
  }

  /**
   * execute: check every row, then write the chosen ones in one transaction. It is an
   * admission of many at once, and only a clash of numbers can still refuse it.
   */
  method Execute(s: School, rows: seq<Row>, found: seq<Found>, canonical: string -> string, o: Options)
    returns (after: School, done: bool, w: Written)
    requires Seated(s) && forall i | 0 <= i < |rows| && rows[i].arm.Some? :: rows[i].arm.value in s.arms
    ensures Imports(s, rows, found, canonical, o, w)
    ensures done <==> Picked(s, rows, found, canonical, o) != [] && !Repeated(w.numbers) && !AnyTaken(s, w.numbers)
    ensures done ==> Perform(s, AdmitMany(w.places, w.numbers)) == Some(after)
    ensures !done ==> after == s
  {
    hide Repeated, AnyTaken, Created, LinkFor, Numbers, Needed, PendingAfter, AllFit, Seated, ToWrite;
    var refs, pending := ResolveGuardians(rows, found, canonical, o);
    assert refs == Refs(rows, found, canonical, o);
    var full := CheckCapacity(s, rows, refs);
    var picked := PickRows(s, rows, refs, full, o);
    forall k | 0 <= k < |picked| && refs[picked[k]].New? ensures refs[picked[k]].key in pending.parents {
      PickedArePending(s, rows, found, canonical, o, k);
    }
    w := WriteRows(s, rows, refs, picked, pending, canonical);
    RecountPasses(s, rows, refs, o);
    done := picked != [] && !Repeated(w.numbers) && !AnyTaken(s, w.numbers);
    after := if done then s.(students := s.students + Admitted(w.places, w.numbers)) else s;
  }

  function NeededKeys(s: School, rows: seq<Row>, found: seq<Found>, canonical: string -> string, o: Options): seq<string> {
    var picked := Picked(s, rows, found, canonical, o);
    Needed(Refs(rows, found, canonical, o), picked, |picked|)
  }

  /** The created parents are the pending ones of the keys needed, each under its own phone. */
  lemma CreatedByKey(s: School, rows: seq<Row>, found: seq<Found>, canonical: string -> string, o: Options, w: Written, i: nat)
    requires Imports(s, rows, found, canonical, o, w) && i < |w.created|
    ensures var needed := NeededKeys(s, rows, found, canonical, o);
      var pending := PendingAfter(rows, |rows|, found, canonical, o);
      && |needed| == |w.created| && needed[i] in pending.parents && w.created[i] == pending.parents[needed[i]]
      && canonical(w.created[i].phone) == needed[i]
  {
    PendingHolds(rows, |rows|, found, canonical, o);
  }

  /**
   * No two parents created have the same phone or the same email, and none has the phone
   * of a parent on file.
   */
  lemma CreatedAreDistinct(s: School, rows: seq<Row>, found: seq<Found>, canonical: string -> string, o: Options, w: Written)
    requires Imports(s, rows, found, canonical, o, w)
    ensures forall i | 0 <= i < |w.created| :: ByPhone(found, |found|, canonical, canonical(w.created[i].phone)) == None
    ensures forall i, j | 0 <= i < j < |w.created| ::
      canonical(w.created[i].phone) != canonical(w.created[j].phone)
      && (w.created[i].email.Some? ==> w.created[i].email != w.created[j].email)
  {
    PendingHolds(rows, |rows|, found, canonical, o);
    forall i | 0 <= i < |w.created|
      ensures ByPhone(found, |found|, canonical, canonical(w.created[i].phone)) == None
    {
      CreatedByKey(s, rows, found, canonical, o, w, i);
    }
    forall i, j | 0 <= i < j < |w.created|
      ensures canonical(w.created[i].phone) != canonical(w.created[j].phone)
      ensures w.created[i].email.Some? ==> w.created[i].email != w.created[j].email
    {
      CreatedByKey(s, rows, found, canonical, o, w, i);
      CreatedByKey(s, rows, found, canonical, o, w, j);
      var needed := NeededKeys(s, rows, found, canonical, o);
      assert needed[i] != needed[j];
    }
  }

  /** Every parent created is linked to a student who was written. */
  lemma CreatedAreLinked(s: School, rows: seq<Row>, found: seq<Found>, canonical: string -> string, o: Options, w: Written, i: nat)
    requires Imports(s, rows, found, canonical, o, w) && i < |w.created|
    ensures exists k :: 0 <= k < |w.links| && w.links[k] == ToCreated(i)
  {
    var refs := Refs(rows, found, canonical, o);
    var picked := Picked(s, rows, found, canonical, o);
    CreatedAreDistinct(s, rows, found, canonical, o, w);
    CreatedByKey(s, rows, found, canonical, o, w, i);
    var key := NeededKeys(s, rows, found, canonical, o)[i];
    NeededAre(refs, picked, |picked|, key);
    var k :| 0 <= k < |picked| && refs[picked[k]] == New(key);
    PlaceIs(w.created, |w.created|, canonical, i);
    assert w.links[k] == ToCreated(i);
  }

  /** And every written student with a new parent is linked to the one with that parent's phone. */
  lemma WrittenAreLinked(s: School, rows: seq<Row>, found: seq<Found>, canonical: string -> string, o: Options, w: Written, k: nat)
    requires Imports(s, rows, found, canonical, o, w) && k < |Picked(s, rows, found, canonical, o)|
    requires RefOf(rows, Picked(s, rows, found, canonical, o)[k], found, canonical, o).New?
    ensures w.links[k].ToCreated? && w.links[k].index < |w.created|
    ensures canonical(w.created[w.links[k].index].phone)
            == canonical(rows[Picked(s, rows, found, canonical, o)[k]].parent.value.phone)
  {
    var refs := Refs(rows, found, canonical, o);
    var picked := Picked(s, rows, found, canonical, o);
    var pending := PendingAfter(rows, |rows|, found, canonical, o);
    var needed := Needed(refs, picked, |picked|);
    PendingHolds(rows, |rows|, found, canonical, o);
    PendingGrows(rows, picked[k], |rows|, found, canonical, o);
    var key := refs[picked[k]].key;
    NeededAre(refs, picked, |picked|, key);
    forall i | 0 <= i < |w.created| ensures canonical(w.created[i].phone) == needed[i] {
      assert needed[i] in pending.parents;
    }
    var i :| 0 <= i < |needed| && needed[i] == key;
    PlaceIs(w.created, |w.created|, canonical, i);
  }
}
