/**
 * The query rewriting that keeps one tenant's client away from every other tenant's rows,
 * over a table whose rows carry the tenant in one column; for the table of the schools
 * themselves that column is the id.
 */
module TenantGuard {
  import opened Wrappers

  /** The columns of a row besides its id. */
  type Row = map<string, nat>

  type Table = map<nat, Row>

  datatype Filter =
    | Anything
    | Is(column: string, value: nat)
    | Fields(fields: map<string, nat>)
    | Both(left: Filter, right: Filter)
    | Either(left: Filter, right: Filter)
    | Not(inner: Filter)

  /** A where record: the fields at its top level, and whatever else it says. */
  datatype Where = Where(fields: map<string, nat>, rest: Filter)

  datatype Operation =
    | FindFirst | FindFirstOrThrow | FindMany | UpdateMany | DeleteMany | Count | Aggregate | GroupBy
    | FindUnique | FindUniqueOrThrow | Update | Delete | Upsert
    | Create | CreateMany | CreateManyAndReturn
    | UpdateManyAndReturn

  /** data: one record, or several for a batch; none is undefined. ids: defaults for rows inserted without one. */
  datatype Args = Args(where: Option<Where>, data: seq<Row>, create: Option<Row>, update: Option<Row>, ids: seq<nat>)

  datatype Context = System | Tenant(id: nat) | Missing

  // ---------------------------------------------------------------------------
  // The rewriting
  // ---------------------------------------------------------------------------

  predicate FiltersWhere(op: Operation) {
    op.FindFirst? || op.FindFirstOrThrow? || op.FindMany? || op.UpdateMany? || op.DeleteMany? || op.Count?
    || op.Aggregate? || op.GroupBy?
  }

  predicate UniqueWhere(op: Operation) {
    op.FindUnique? || op.FindUniqueOrThrow? || op.Update? || op.Delete? || op.Upsert?
  }

  predicate Creates(op: Operation) { op.Create? || op.CreateMany? || op.CreateManyAndReturn? }

  /** The operations the guard knows. */
  predicate Listed(op: Operation) { FiltersWhere(op) || UniqueWhere(op) || Creates(op) }

  /** AND-wrapping keeps the caller's filter intact. */
  function WithTenant(where: Option<Where>, field: string, tenant: nat): Where {
    match where
    case None => Where(map[field := tenant], Anything)
    case Some(w) => Where(map[], Both(Both(Fields(w.fields), w.rest), Is(field, tenant)))
  }

  /** A flat merge: the unique field stays at the top, and the tenant replaces any the caller named. */
  function Merged(where: Option<Where>, field: string, tenant: nat): Where {
    match where
    case None => Where(map[field := tenant], Anything)
    case Some(w) => Where(w.fields[field := tenant], w.rest)
  }

  predicate Overrides(data: Row, field: string, tenant: nat) { field in data && data[field] != tenant }

  predicate AnyOverrides(data: seq<Row>, field: string, tenant: nat) {
    exists i | 0 <= i < |data| :: Overrides(data[i], field, tenant)
  }

  function Stamped(data: seq<Row>, field: string, tenant: nat): (r: seq<Row>)
    ensures |r| == |data|
  {
    seq(|data|, i requires 0 <= i < |data| => data[i][field := tenant])
  }

  /** The arguments the query runs with; None when the guard throws. */
  function Guarded(context: Context, field: string, op: Operation, args: Args): Option<Args> {
    match context
    case System => Some(args)
    case Missing => None
    case Tenant(t) =>
      var where := if FiltersWhere(op) then Some(WithTenant(args.where, field, t))
                   else if UniqueWhere(op) then Some(Merged(args.where, field, t))
                   else args.where;
      if (Creates(op) || op.Update? || op.UpdateMany?) && AnyOverrides(args.data, field, t) then None
      else if op.Upsert? && args.create.Some? && Overrides(args.create.value, field, t) then None
      else if op.Upsert? && args.update.Some? && Overrides(args.update.value, field, t) then None
      else Some(args.(
        where := where,
        data := if Creates(op) then Stamped(args.data, field, t) else args.data,
        create := if op.Upsert? && args.create.Some? then Some(args.create.value[field := t]) else args.create))
  }

  /** assertNoTenantOverride over the records of a write. */
  method MayWrite(data: seq<Row>, field: string, t: nat) returns (ok: bool)
    ensures ok == !AnyOverrides(data, field, t)
  {
    ok := true;
    for i := 0 to |data|
      invariant ok == !AnyOverrides(data[..i], field, t)
    {
      assert data[..i + 1] == data[..i] + [data[i]];
      if Overrides(data[i], field, t) { ok := false; }
    }
    assert data[..|data|] == data;
  }

  /** applyTenantToCreateData over the records of a create. */
  method Stamp(data: seq<Row>, field: string, t: nat) returns (stamped: Option<seq<Row>>)
    ensures stamped == if AnyOverrides(data, field, t) then None else Some(Stamped(data, field, t))
  {
    var ok := MayWrite(data, field, t);
    if !ok { return None; }
    var rows: seq<Row> := [];
    for i := 0 to |data|
      invariant rows == Stamped(data, field, t)[..i]
    {
      rows := rows + [data[i][field := t]];
    }
    assert rows == Stamped(data, field, t);
    stamped := Some(rows);
  }

  /** The handler, which reassigns the arguments one after another. */
  method Handle(context: Context, field: string, op: Operation, args: Args) returns (next: Option<Args>)
    ensures next == Guarded(context, field, op, args)
  {
    if context.System? { return Some(args); }
    if context.Missing? { return None; }
    var t := context.id;
    var result := args;
    if FiltersWhere(op) {
      result := result.(where := Some(WithTenant(args.where, field, t)));
    } else if UniqueWhere(op) {
      result := result.(where := Some(Merged(args.where, field, t)));
    }
    if Creates(op) {
      var stamped := Stamp(args.data, field, t);
      if stamped.None? { return None; }
      result := result.(data := stamped.value);
    }
    if op.Upsert? {
      if args.create.Some? {
        if Overrides(args.create.value, field, t) { return None; }
        result := result.(create := Some(args.create.value[field := t]));
      }
      if args.update.Some? && Overrides(args.update.value, field, t) { return None; }
    }
    if op.Update? || op.UpdateMany? {
      var ok := MayWrite(args.data, field, t);
      if !ok { return None; }
    }
    next := Some(result);
  }

  // ---------------------------------------------------------------------------
  // The database
  // ---------------------------------------------------------------------------

  predicate HasValue(id: nat, row: Row, column: string, value: nat) {
    if column == "id" then id == value else column in row && row[column] == value
  }

  predicate Matches(f: Filter, id: nat, row: Row) {
    match f
    case Anything => true
    case Is(column, value) => HasValue(id, row, column, value)
    case Fields(fields) => forall c | c in fields :: HasValue(id, row, c, fields[c])
    case Both(l, r) => Matches(l, id, row) && Matches(r, id, row)
    case Either(l, r) => Matches(l, id, row) || Matches(r, id, row)
    case Not(inner) => !Matches(inner, id, row)
  }

  predicate Satisfies(where: Option<Where>, id: nat, row: Row) {
    where.Some? ==>
      Matches(Fields(where.value.fields), id, row) && Matches(where.value.rest, id, row)
  }

  function Found(table: Table, where: Option<Where>): Table {
    map id | id in table && Satisfies(where, id, table[id]) :: table[id]
  }

  /** What an operation answers, and what it writes. */
  datatype Outcome = Outcome(answer: Answer, removed: set<nat>, written: Table)

  /** Rows: what a read or a write returns is computed from these. */
  datatype Answer = Rows(rows: Table) | NotFound | Clash

  const CLASHED := Outcome(Clash, {}, map[])

  /** The key a new row gets, and its other columns. */
  function KeyOf(data: Row, supplied: nat): nat { if "id" in data then data["id"] else supplied }

  function Body(data: Row): Row { data - {"id"} }

  function KeysOf(data: seq<Row>, ids: seq<nat>): (keys: seq<nat>)
    requires |ids| == |data|
    ensures |keys| == |data|
  {
    seq(|data|, i requires 0 <= i < |data| => KeyOf(data[i], ids[i]))
  }

  function Inserted(ids: seq<nat>, data: seq<Row>, n: nat): Table
    requires n <= |data| && n <= |ids|
  {
    if n == 0 then map[] else Inserted(ids, data, n - 1)[KeyOf(data[n - 1], ids[n - 1]) := Body(data[n - 1])]
  }

  predicate Repeated(ids: seq<nat>) { exists i, j | 0 <= i < j < |ids| :: ids[i] == ids[j] }

  function Changed(found: Table, data: Row): Table { map id | id in found :: found[id] + Body(data) }

  /** An update of the rows found; one that sets the id moves the row, if just one is found and the id is free. */
  ghost function Updated(found: Table, taken: set<nat>, data: Row): Outcome {
    if "id" !in data || found.Keys <= {data["id"]} then Outcome(Rows(Changed(found, data)), {}, Changed(found, data))
    else if data["id"] in taken || !exists k :: found.Keys == {k} then CLASHED
    else
      var k :| found.Keys == {k};
      var moved := map[data["id"] := found[k] + Body(data)];
      Outcome(Rows(moved), {k}, moved)
  }

  /** taken: the ids the arguments ask for that some row already has. */
  ghost function Answered(op: Operation, found: Table, taken: set<nat>, args: Args): Outcome {
    match op
    case Update =>
      if found == map[] || args.data == [] then Outcome(NotFound, {}, map[]) else Updated(found, taken, args.data[0])
    case UpdateMany =>
      if args.data == [] then Outcome(Rows(map[]), {}, map[]) else Updated(found, taken, args.data[0])
    case UpdateManyAndReturn =>
      if args.data == [] then Outcome(Rows(map[]), {}, map[]) else Updated(found, taken, args.data[0])
    case Delete => if found == map[] then Outcome(NotFound, {}, map[]) else Outcome(Rows(found), found.Keys, map[])
    case DeleteMany => Outcome(Rows(found), found.Keys, map[])
    case Upsert =>
      if found != map[] then Updated(found, taken, if args.update.Some? then args.update.value else map[])
      else if args.create.None? || args.ids == [] then Outcome(NotFound, {}, map[])
      else if KeyOf(args.create.value, args.ids[0]) in taken then CLASHED
      else
        var row := map[KeyOf(args.create.value, args.ids[0]) := Body(args.create.value)];
        Outcome(Rows(row), {}, row)
    case FindFirstOrThrow => Outcome(if found == map[] then NotFound else Rows(found), {}, map[])
    case FindUniqueOrThrow => Outcome(if found == map[] then NotFound else Rows(found), {}, map[])
    case _ =>
      if !Creates(op) then Outcome(Rows(found), {}, map[])
      else if |args.ids| != |args.data| || Repeated(KeysOf(args.data, args.ids)) || taken != {} then CLASHED
      else
        var rows := Inserted(args.ids, args.data, |args.data|);
        Outcome(Rows(rows), {}, rows)
  }

  function SetIds(data: seq<Row>): set<nat> { set i | 0 <= i < |data| && "id" in data[i] :: data[i]["id"] }

  /** The ids an operation may give to a row. */
  function Asked(op: Operation, args: Args): set<nat> {
    if Creates(op) then
      (if |args.ids| == |args.data| then set k | k in KeysOf(args.data, args.ids) else {})
    else if op.Upsert? then
      (if args.create.Some? && args.ids != [] then {KeyOf(args.create.value, args.ids[0])} else {})
      + (if args.update.Some? then SetIds([args.update.value]) else {})
    else if op.Update? || op.UpdateMany? || op.UpdateManyAndReturn? then SetIds(args.data)
    else {}
  }

  ghost function Query(table: Table, op: Operation, args: Args): Outcome {
    Answered(op, Found(table, args.where), Asked(op, args) * table.Keys, args)
  }

  function After(table: Table, outcome: Outcome): Table { (table - outcome.removed) + outcome.written }

  /** One call of the client: the guard's refusal changes nothing. */
  ghost function Call(context: Context, field: string, table: Table, op: Operation, args: Args): (Option<Answer>, Table) {
    match Guarded(context, field, op, args)
    case None => (None, table)
    case Some(next) =>
      var outcome := Query(table, op, next);
      (Some(outcome.answer), After(table, outcome))
  }

  // ---------------------------------------------------------------------------
  // Confinement
  // ---------------------------------------------------------------------------

  predicate Owned(id: nat, row: Row, field: string, t: nat) { HasValue(id, row, field, t) }

  /** One tenant's rows. */
  function Slice(table: Table, field: string, t: nat): Table {
    map id | id in table && Owned(id, table[id], field, t) :: table[id]
  }

  function Others(table: Table, field: string, t: nat): Table {
    map id | id in table && !Owned(id, table[id], field, t) :: table[id]
  }

  /** A read or change sees the tenant's rows and no other. */
  lemma GuardedFinds(table: Table, field: string, t: nat, op: Operation, args: Args)
    requires (FiltersWhere(op) || UniqueWhere(op)) && Guarded(Tenant(t), field, op, args).Some?
    ensures var where := Guarded(Tenant(t), field, op, args).value.where;
      Found(table, where) == Found(Slice(table, field, t), where)
  {
    var where := Guarded(Tenant(t), field, op, args).value.where;
    forall id | id in table && Satisfies(where, id, table[id]) ensures Owned(id, table[id], field, t) {
      assert FiltersWhere(op) && args.where.Some? ==> Matches(Is(field, t), id, table[id]);
      if !(FiltersWhere(op) && args.where.Some?) {
        assert where.value.fields[field] == t;
        assert HasValue(id, table[id], field, where.value.fields[field]);
      }
    }
  }

  // ---------------------------------------------------------------------------
  // What the caller asked for is kept
  // ---------------------------------------------------------------------------

  /** The where names another tenant at its top level. */
  predicate NamesAnother(where: Option<Where>, field: string, t: nat) {
    where.Some? && field in where.value.fields && where.value.fields[field] != t
  }

  /** A filter given by the caller still selects: of the tenant's rows, exactly those that satisfy it. */
  lemma FilterIsKept(table: Table, field: string, t: nat, op: Operation, args: Args)
    requires FiltersWhere(op) && Guarded(Tenant(t), field, op, args).Some?
    ensures var found := Found(table, Guarded(Tenant(t), field, op, args).value.where);
      forall id: nat ::
        && (id in found <==> id in table && HasValue(id, table[id], field, t) && Satisfies(args.where, id, table[id]))
        && (id in found ==> found[id] == table[id])
  {
    forall id | id in table
      ensures Satisfies(Guarded(Tenant(t), field, op, args).value.where, id, table[id]) <==>
        HasValue(id, table[id], field, t) && Satisfies(args.where, id, table[id])
    {
      FilteredMatch(args.where, field, t, id, table[id]);
    }
  }

  lemma FilteredMatch(where: Option<Where>, field: string, t: nat, id: nat, row: Row)
    ensures Satisfies(Some(WithTenant(where, field, t)), id, row) <==>
      HasValue(id, row, field, t) && Satisfies(where, id, row)
  {
    var guarded := WithTenant(where, field, t);
    if where.None? {
      assert field in guarded.fields;
    } else {
      var w := where.value;
      assert Matches(Both(Fields(w.fields), w.rest), id, row) <==>
        Matches(Fields(w.fields), id, row) && Matches(w.rest, id, row);
      assert Matches(guarded.rest, id, row) <==>
        Matches(Both(Fields(w.fields), w.rest), id, row) && Matches(Is(field, t), id, row);
      assert guarded.fields == map[];
    }
  }

  /**
   * A unique lookup still finds, of the tenant's rows, exactly those that satisfy its where;
   * the tenant is only put in the place of another one it named.
   */
  lemma UniqueIsKept(table: Table, field: string, t: nat, op: Operation, args: Args)
    requires UniqueWhere(op) && Guarded(Tenant(t), field, op, args).Some?
    ensures var found := Found(table, Guarded(Tenant(t), field, op, args).value.where);
      var asked := if NamesAnother(args.where, field, t)
        then Some(args.where.value.(fields := args.where.value.fields - {field})) else args.where;
      forall id: nat ::
        && (id in found <==> id in table && HasValue(id, table[id], field, t) && Satisfies(asked, id, table[id]))
        && (id in found ==> found[id] == table[id])
  {
    var asked := if NamesAnother(args.where, field, t)
      then Some(args.where.value.(fields := args.where.value.fields - {field})) else args.where;
    forall id | id in table
      ensures Satisfies(Guarded(Tenant(t), field, op, args).value.where, id, table[id]) <==>
        HasValue(id, table[id], field, t) && Satisfies(asked, id, table[id])
    {
      MergedMatch(args.where, asked, field, t, id, table[id]);
    }
  }

  lemma MergedMatch(where: Option<Where>, asked: Option<Where>, field: string, t: nat, id: nat, row: Row)
    requires asked == if NamesAnother(where, field, t) then Some(where.value.(fields := where.value.fields - {field}))
                      else where
    ensures Satisfies(Some(Merged(where, field, t)), id, row) <==>
      HasValue(id, row, field, t) && Satisfies(asked, id, row)
  {
    var merged := Merged(where, field, t).fields;
    assert field in merged;
    if where.Some? {
      assert forall c | c in asked.value.fields :: c in merged && merged[c] == asked.value.fields[c];
      assert forall c | c in merged && c != field :: c in asked.value.fields;
    }
  }

  /** The record with the tenant's column set, and nothing else about it changed. */
  ghost predicate IsStamped(before: Row, after: Row, field: string, t: nat) {
    && field in after && after[field] == t
    && (forall c :: c in after <==> c in before || c == field)
    && (forall c | c in before :: after[c] == before[c])
  }

  /** What a request writes: each record as given, with the tenant put in on creating. */
  lemma RecordsAreKept(field: string, t: nat, op: Operation, args: Args)
    requires Guarded(Tenant(t), field, op, args).Some?
    ensures var next := Guarded(Tenant(t), field, op, args).value;
      && |next.data| == |args.data| && next.update == args.update && next.ids == args.ids
      && (forall i | 0 <= i < |args.data| ::
            if Creates(op) then IsStamped(args.data[i], next.data[i], field, t) else next.data[i] == args.data[i])
      && next.create.Some? == args.create.Some?
      && (args.create.Some? ==>
            if op.Upsert? then IsStamped(args.create.value, next.create.value, field, t)
            else next.create == args.create)
      && (!FiltersWhere(op) && !UniqueWhere(op) ==> next.where == args.where)
  {
    if Creates(op) { assert forall i | 0 <= i < |args.data| :: !Overrides(args.data[i], field, t); }
  }

  /** The data names a tenant, and it is another one. */
  predicate ForAnother(data: Row, field: string, t: nat) { field in data && data[field] != t }

  /** A request is refused exactly without a tenant, or when it writes data that names another. */
  lemma RefusedExactly(context: Context, field: string, op: Operation, args: Args)
    ensures Guarded(context, field, op, args).None? <==>
      context.Missing?
      || (context.Tenant? &&
            ((op.Create? || op.CreateMany? || op.CreateManyAndReturn? || op.Update? || op.UpdateMany?)
              && exists i :: 0 <= i < |args.data| && ForAnother(args.data[i], field, context.id)))
      || (context.Tenant? && op.Upsert? &&
            ((args.create.Some? && ForAnother(args.create.value, field, context.id))
             || (args.update.Some? && ForAnother(args.update.value, field, context.id))))
    ensures context.System? ==> Guarded(context, field, op, args) == Some(args)
  {
    if context.Tenant? && AnyOverrides(args.data, field, context.id) {
      var i :| 0 <= i < |args.data| && Overrides(args.data[i], field, context.id);
      assert ForAnother(args.data[i], field, context.id);
    }
  }

  /** What the caller asked for is one of the tenant's rows. */
  predicate Asks(args: Args, field: string, t: nat, id: nat, row: Row) {
    HasValue(id, row, field, t) && Satisfies(args.where, id, row)
  }

  /** The tenant's rows that were asked for. */
  function AskedFor(table: Table, field: string, t: nat, args: Args): Table {
    map id | id in table && Asks(args, field, t, id, table[id]) :: table[id]
  }

  lemma FoundIsAskedFor(table: Table, field: string, t: nat, op: Operation, args: Args)
    requires FiltersWhere(op) && Guarded(Tenant(t), field, op, args).Some?
    ensures Found(table, Guarded(Tenant(t), field, op, args).value.where) == AskedFor(table, field, t, args)
  {
    hide Satisfies, WithTenant, HasValue;
    FilterIsKept(table, field, t, op, args);
  }

  lemma Removing(table: Table, gone: Table)
    requires forall id | id in gone :: id in table && gone[id] == table[id]
    ensures After(table, Outcome(Rows(gone), {}, map[])) == table
    ensures After(table, Outcome(Rows(gone), gone.Keys, map[])) == map id | id in table && id !in gone :: table[id]
  {
  }

  /** A read answers exactly the tenant's rows that were asked for, and changes nothing. */
  lemma ReadsExactly(table: Table, field: string, t: nat, args: Args)
    ensures Call(Tenant(t), field, table, FindMany, args)
            == (Some(Rows(map id | id in table && Asks(args, field, t, id, table[id]) :: table[id])), table)
  {
    hide Asks, WithTenant, Found;
    FoundIsAskedFor(table, field, t, FindMany, args);
    Removing(table, AskedFor(table, field, t, args));
  }

  /** A deletion removes exactly the tenant's rows that were asked for. */
  lemma DeletesExactly(table: Table, field: string, t: nat, args: Args)
    ensures Call(Tenant(t), field, table, DeleteMany, args).1
            == map id | id in table && !Asks(args, field, t, id, table[id]) :: table[id]
  {
    hide Asks, WithTenant, Found;
    FoundIsAskedFor(table, field, t, DeleteMany, args);
    Removing(table, AskedFor(table, field, t, args));
  }

  /** A change of many rows that gives no row a new id changes exactly those, in exactly the columns given. */
  lemma ChangesExactly(table: Table, field: string, t: nat, args: Args)
    requires |args.data| == 1 && "id" !in args.data[0] && !ForAnother(args.data[0], field, t)
    ensures Call(Tenant(t), field, table, UpdateMany, args).1
            == map id | id in table :: if Asks(args, field, t, id, table[id]) then table[id] + args.data[0] else table[id]
  {
    hide Asks, WithTenant, Found;
    FoundIsAskedFor(table, field, t, UpdateMany, args);
    var found := AskedFor(table, field, t, args);
    assert Body(args.data[0]) == args.data[0];
    assert After(table, Outcome(Rows(Changed(found, args.data[0])), {}, Changed(found, args.data[0])))
      == map id | id in table :: if Asks(args, field, t, id, table[id]) then table[id] + args.data[0] else table[id];
  }

  function OfTenant(data: Row, field: string, t: nat): Row { data[field := t] }

  /** A new record becomes a row of the tenant's with the columns given, under the next id nobody has. */
  lemma CreatesExactly(table: Table, field: string, t: nat, args: Args)
    requires |args.data| == |args.ids| == 1 && "id" !in args.data[0] && field != "id" && !ForAnother(args.data[0], field, t)
    ensures Call(Tenant(t), field, table, Create, args).1
            == if args.ids[0] in table then table else table[args.ids[0] := OfTenant(args.data[0], field, t)]
  {
    var id, row := args.ids[0], OfTenant(args.data[0], field, t);
    var next := Guarded(Tenant(t), field, Create, args).value;
    assert next.data == [row] && Body(row) == row;
    assert KeysOf(next.data, next.ids) == [id];
    assert Asked(Create, next) == {id};
    assert Inserted(next.ids, next.data, 0) == map[];
    if id in table {
      assert id in Asked(Create, next) * table.Keys;
      assert After(table, CLASHED) == table;
    } else {
      assert Asked(Create, next) * table.Keys == {};
      assert Inserted(next.ids, next.data, 1) == map[id := row];
      assert After(table, Outcome(Rows(map[id := row]), {}, map[id := row])) == table[id := row];
    }
  }

  lemma {:induction false} InsertedFrom(ids: seq<nat>, data: seq<Row>, n: nat, id: nat)
    requires n <= |data| && n <= |ids| && id in Inserted(ids, data, n)
    ensures exists i :: 0 <= i < n && KeyOf(data[i], ids[i]) == id && Inserted(ids, data, n)[id] == Body(data[i])
  {
    if id == KeyOf(data[n - 1], ids[n - 1]) {
      assert Inserted(ids, data, n)[id] == Body(data[n - 1]);
    } else {
      InsertedFrom(ids, data, n - 1, id);
    }
  }

  /** What a guarded operation removes and writes is the tenant's, and it touches nothing of another's. */
  ghost predicate StaysInside(table: Table, field: string, t: nat, outcome: Outcome) {
    && (forall id | id in outcome.removed :: id in table && Owned(id, table[id], field, t))
    && (forall id | id in outcome.written :: Owned(id, outcome.written[id], field, t))
    && (forall id | id in outcome.written && id in table :: Owned(id, table[id], field, t))
  }

  /** A record the guard has stamped makes a row of the tenant. */
  lemma StampedIsOwned(data: Row, supplied: nat, field: string, t: nat)
    requires field in data && data[field] == t
    ensures Owned(KeyOf(data, supplied), Body(data), field, t)
  {
  }

  lemma CreateStaysInside(table: Table, field: string, t: nat, op: Operation, args: Args)
    requires Creates(op) && Guarded(Tenant(t), field, op, args).Some?
    ensures StaysInside(table, field, t, Query(table, op, Guarded(Tenant(t), field, op, args).value))
  {
    var next := Guarded(Tenant(t), field, op, args).value;
    var outcome := Query(table, op, next);
    forall id | id in outcome.written
      ensures Owned(id, outcome.written[id], field, t) && id !in table
    {
      InsertedFrom(next.ids, next.data, |next.data|, id);
      var i :| 0 <= i < |next.data| && KeyOf(next.data[i], next.ids[i]) == id && outcome.written[id] == Body(next.data[i]);
      StampedIsOwned(next.data[i], next.ids[i], field, t);
      assert KeysOf(next.data, next.ids)[i] == id;
      assert id in table ==> id in Asked(op, next) * table.Keys;
    }
  }

  /** An update that does not name another tenant keeps the rows with the tenant. */
  lemma UpdateStaysInside(table: Table, found: Table, taken: set<nat>, data: Row, field: string, t: nat)
    requires forall id | id in found :: id in table && Owned(id, table[id], field, t) && found[id] == table[id]
    requires !Overrides(data, field, t) && ("id" in data && data["id"] in table ==> data["id"] in taken)
    ensures StaysInside(table, field, t, Updated(found, taken, data))
  {
  }

  lemma GuardedStaysInside(table: Table, field: string, t: nat, op: Operation, args: Args)
    requires Listed(op) && Guarded(Tenant(t), field, op, args).Some?
    ensures StaysInside(table, field, t, Query(table, op, Guarded(Tenant(t), field, op, args).value))
  {
    hide Matches, Updated, Inserted, Repeated, KeysOf, StaysInside;
    var next := Guarded(Tenant(t), field, op, args).value;
    if Creates(op) {
      CreateStaysInside(table, field, t, op, args);
    } else {
      OperationStaysInside(table, field, t, op, args);
    }
  }

  lemma FoundIsOwned(table: Table, field: string, t: nat, op: Operation, args: Args)
    requires (FiltersWhere(op) || UniqueWhere(op)) && Guarded(Tenant(t), field, op, args).Some?
    ensures var found := Found(table, Guarded(Tenant(t), field, op, args).value.where);
      forall id | id in found :: id in table && Owned(id, table[id], field, t) && found[id] == table[id]
  {
    GuardedFinds(table, field, t, op, args);
    var where := Guarded(Tenant(t), field, op, args).value.where;
    forall id | id in Found(table, where) ensures Owned(id, table[id], field, t) {
      assert id in Found(Slice(table, field, t), where);
    }
  }

  lemma OperationStaysInside(table: Table, field: string, t: nat, op: Operation, args: Args)
    requires (FiltersWhere(op) || UniqueWhere(op)) && Guarded(Tenant(t), field, op, args).Some?
    ensures StaysInside(table, field, t, Query(table, op, Guarded(Tenant(t), field, op, args).value))
  {
    hide Matches, Updated, Inserted, Repeated, KeysOf, Found;
    var next := Guarded(Tenant(t), field, op, args).value;
    var found, taken := Found(table, next.where), Asked(op, next) * table.Keys;
    FoundIsOwned(table, field, t, op, args);
    if (op.Update? || op.UpdateMany?) && args.data != [] {
      assert !Overrides(args.data[0], field, t) by { assert !AnyOverrides(args.data, field, t); }
      UpdateStaysInside(table, found, taken, args.data[0], field, t);
    } else if op.Upsert? {
      var data := if args.update.Some? then args.update.value else map[];
      assert "id" in data && data["id"] in table ==> data["id"] in taken by {
        if args.update.Some? { assert [args.update.value][0] == args.update.value; }
      }
      UpdateStaysInside(table, found, taken, data, field, t);
      if args.create.Some? && args.ids != [] { StampedIsOwned(next.create.value, args.ids[0], field, t); }
    }
  }

  /** Two outcomes from two tables are one when what is found and what is free are the same. */
  lemma SameOutcome(a: Table, b: Table, field: string, t: nat, op: Operation, args: Args)
    requires Listed(op) && Guarded(Tenant(t), field, op, args).Some?
    requires Slice(a, field, t) == Slice(b, field, t)
    requires var asked := Asked(op, Guarded(Tenant(t), field, op, args).value); asked * a.Keys == asked * b.Keys
    ensures var next := Guarded(Tenant(t), field, op, args).value; Query(a, op, next) == Query(b, op, next)
  {
    hide Matches, Updated, Inserted, Repeated, KeysOf, Found, Asked;
    if !Creates(op) {
      GuardedFinds(a, field, t, op, args);
      GuardedFinds(b, field, t, op, args);
    }
  }

  lemma SliceAfter(table: Table, field: string, t: nat, outcome: Outcome)
    requires StaysInside(table, field, t, outcome)
    ensures Slice(After(table, outcome), field, t) == After(Slice(table, field, t), outcome)
    ensures Others(After(table, outcome), field, t) == Others(table, field, t)
  {
  }

  // ---------------------------------------------------------------------------
  // Runs
  // ---------------------------------------------------------------------------

  datatype Request = Request(op: Operation, args: Args)

  ghost function Run(t: nat, field: string, table: Table, requests: seq<Request>, n: nat): Table
    requires n <= |requests|
  {
    if n == 0 then table
    else Call(Tenant(t), field, Run(t, field, table, requests, n - 1), requests[n - 1].op, requests[n - 1].args).1
  }

  ghost function AnswerAt(t: nat, field: string, table: Table, requests: seq<Request>, i: nat): Option<Answer>
    requires i < |requests|
  {
    Call(Tenant(t), field, Run(t, field, table, requests, i), requests[i].op, requests[i].args).0
  }

  /** The ids a request asks for, once the guard has let it through. */
  function AskedBy(field: string, t: nat, op: Operation, args: Args): set<nat> {
    match Guarded(Tenant(t), field, op, args)
    case None => {}
    case Some(next) => Asked(op, next)
  }

  /** No row of another tenant has an id this tenant's client will give to a row. */
  ghost predicate FreshIds(table: Table, field: string, t: nat, requests: seq<Request>) {
    forall i | 0 <= i < |requests| ::
      AskedBy(field, t, requests[i].op, requests[i].args) !! Others(table, field, t).Keys
  }

  /** In the table of the schools the guard leaves no other id to ask for. */
  lemma SchoolIdsAreFresh(table: Table, t: nat, requests: seq<Request>)
    requires AllListed(requests)
    ensures FreshIds(table, "id", t, requests)
  {
    forall i | 0 <= i < |requests| ensures AskedBy("id", t, requests[i].op, requests[i].args) <= {t} {
      SchoolAsks(t, requests[i].op, requests[i].args);
    }
  }

  lemma SchoolAsks(t: nat, op: Operation, args: Args)
    requires Listed(op)
    ensures AskedBy("id", t, op, args) <= {t}
  {
    if Guarded(Tenant(t), "id", op, args).Some? {
      var next := Guarded(Tenant(t), "id", op, args).value;
      if op.Update? || op.UpdateMany? {
        forall i | 0 <= i < |args.data| ensures !Overrides(args.data[i], "id", t) {
          assert !AnyOverrides(args.data, "id", t);
        }
      }
    }
  }

  ghost predicate AllListed(requests: seq<Request>) { forall i | 0 <= i < |requests| :: Listed(requests[i].op) }

  /** Another tenant's rows are as they were, and every row that changed is this tenant's. */
  lemma {:induction false} OthersUntouched(t: nat, field: string, table: Table, requests: seq<Request>, n: nat)
    requires n <= |requests| && AllListed(requests)
    ensures Others(Run(t, field, table, requests, n), field, t) == Others(table, field, t)
  {
    hide Query, Others, After, StaysInside, Guarded;
    if n > 0 {
      OthersUntouched(t, field, table, requests, n - 1);
      var before := Run(t, field, table, requests, n - 1);
      var request := requests[n - 1];
      if Guarded(Tenant(t), field, request.op, request.args).Some? {
        var next := Guarded(Tenant(t), field, request.op, request.args).value;
        GuardedStaysInside(before, field, t, request.op, request.args);
        SliceAfter(before, field, t, Query(before, request.op, next));
      }
    }
  }

  /** Ids that no other tenant has are taken in both tables or in neither. */
  lemma SameTaken(t: nat, field: string, a: Table, b: Table, asked: set<nat>)
    requires Slice(a, field, t) == Slice(b, field, t)
    requires asked !! Others(a, field, t).Keys && asked !! Others(b, field, t).Keys
    ensures asked * a.Keys == asked * b.Keys
  {
    forall id | id in asked ensures id in a <==> id in b {
      assert id in a ==> id in Slice(a, field, t);
      assert id in b ==> id in Slice(b, field, t);
    }
  }

  lemma CallAgrees(t: nat, field: string, a: Table, b: Table, op: Operation, args: Args)
    requires Listed(op) && Slice(a, field, t) == Slice(b, field, t)
    requires AskedBy(field, t, op, args) !! Others(a, field, t).Keys && AskedBy(field, t, op, args) !! Others(b, field, t).Keys
    ensures Call(Tenant(t), field, a, op, args).0 == Call(Tenant(t), field, b, op, args).0
    ensures Slice(Call(Tenant(t), field, a, op, args).1, field, t) == Slice(Call(Tenant(t), field, b, op, args).1, field, t)
  {
    hide Query, Found, Asked, StaysInside, After, Slice, Others, Guarded;
    if Guarded(Tenant(t), field, op, args).Some? {
      var next := Guarded(Tenant(t), field, op, args).value;
      SameTaken(t, field, a, b, Asked(op, next));
      SameOutcome(a, b, field, t, op, args);
      GuardedStaysInside(a, field, t, op, args);
      GuardedStaysInside(b, field, t, op, args);
      SliceAfter(a, field, t, Query(a, op, next));
      SliceAfter(b, field, t, Query(b, op, next));
    }
  }

  /**
   * Non-interference: over any requests of the listed operations, two databases that agree
   * on the tenant's rows keep agreeing on them and give the same answers.
   */
  lemma {:induction false} NoInterference(t: nat, field: string, a: Table, b: Table, requests: seq<Request>, n: nat)
    requires n <= |requests| && AllListed(requests)
    requires SameSlices(a, b, field, t) && FreshIds(a, field, t, requests) && FreshIds(b, field, t, requests)
    ensures SameSlices(Run(t, field, a, requests, n), Run(t, field, b, requests, n), field, t)
    ensures SameAnswers(t, field, a, b, requests, n)
  {
    if n > 0 {
      NoInterference(t, field, a, b, requests, n - 1);
      LastAgrees(t, field, a, b, requests, n - 1);
    }
  }

  ghost predicate SameAnswers(t: nat, field: string, a: Table, b: Table, requests: seq<Request>, n: nat)
    requires n <= |requests|
  {
    n > 0 ==>
      && SameAnswers(t, field, a, b, requests, n - 1)
      && AnswerAt(t, field, a, requests, n - 1) == AnswerAt(t, field, b, requests, n - 1)
  }

  ghost predicate SameSlices(a: Table, b: Table, field: string, t: nat) { Slice(a, field, t) == Slice(b, field, t) }

  lemma LastAgrees(t: nat, field: string, a: Table, b: Table, requests: seq<Request>, n: nat)
    requires n < |requests| && AllListed(requests)
    requires FreshIds(a, field, t, requests) && FreshIds(b, field, t, requests)
    requires SameSlices(Run(t, field, a, requests, n), Run(t, field, b, requests, n), field, t)
    ensures AnswerAt(t, field, a, requests, n) == AnswerAt(t, field, b, requests, n)
    ensures SameSlices(Run(t, field, a, requests, n + 1), Run(t, field, b, requests, n + 1), field, t)
  {
    OthersUntouched(t, field, a, requests, n);
    OthersUntouched(t, field, b, requests, n);
    CallAgrees(t, field, Run(t, field, a, requests, n), Run(t, field, b, requests, n), requests[n].op, requests[n].args);
  }

  /**
   * The guard confines an operation, on every table and for every request, exactly when the
   * operation is one it lists: the one left out reaches any tenant's rows.
   */
  lemma ConfinedIffListed(op: Operation, field: string, t: nat)
    ensures Listed(op) <==> forall table, args :: Confined(op, field, t, table, args)
  {
    if Listed(op) {
      forall table, args ensures Confined(op, field, t, table, args) {
        if Guarded(Tenant(t), field, op, args).Some? {
          GuardedStaysInside(table, field, t, op, args);
          SliceAfter(table, field, t, Query(table, op, Guarded(Tenant(t), field, op, args).value));
        }
      }
    } else {
      Reached(op, field, t);
    }
  }

  /** A change to a column of another tenant's row, through the operation left out. */
  lemma Reached(op: Operation, field: string, t: nat)
    requires !Listed(op)
    ensures exists table, args :: !Confined(op, field, t, table, args)
  {
    var other := field + "x";
    assert other != "id" by { assert other[|other| - 1] == 'x'; }
    var row: Row := map[field := t + 1];
    var data: Row := map[other := 1];
    var table: Table := map[t + 1 := row];
    var args := Args(None, [data], None, None, []);
    assert t + 1 in Others(table, field, t);
    assert Found(table, None) == table;
    assert After(table, Query(table, op, args))[t + 1] == row + Body(data);
    assert other in row + Body(data) && other !in row;
    assert !Confined(op, field, t, table, args);
  }

  ghost predicate Confined(op: Operation, field: string, t: nat, table: Table, args: Args) {
    Others(Call(Tenant(t), field, table, op, args).1, field, t) == Others(table, field, t)
  }
}
