/** A batch of score cells: what makes it acceptable, and what saving it leaves in the table. */
module ScoreEntries {
  import opened Wrappers
  import opened ComputeResults

  /** A score of None clears the cell. */
  datatype Entry = Entry(student: nat, component: nat, score: Option<int>)

  // ---------------------------------------------------------------------------
  // Validation
  // ---------------------------------------------------------------------------

  /** The component map: the last component with an id wins. */
  function ComponentOf(components: seq<Component>, n: nat, id: nat): Option<Component>
    requires n <= |components|
  {
    if n == 0 then None
    else if components[n - 1].id == id then Some(components[n - 1])
    else ComponentOf(components, n - 1, id)
  }

  predicate Within(component: Option<Component>, score: Option<int>) {
    component.Some? && (score.Some? ==> 0 <= score.value <= component.value.max)
  }

  predicate SameCell(a: Entry, b: Entry) { a.student == b.student && a.component == b.component }

  predicate Repeats(entries: seq<Entry>, i: nat)
    requires i < |entries|
  {
    exists j | 0 <= j < i :: SameCell(entries[j], entries[i])
  }

  predicate Good(roster: seq<nat>, components: seq<Component>, entries: seq<Entry>, i: nat)
    requires i < |entries|
  {
    && entries[i].student in roster
    && Within(ComponentOf(components, |components|, entries[i].component), entries[i].score)
    && !Repeats(entries, i)
  }

  /** Every cell in the class, in the scheme, in range, and named once. */
  predicate Accepted(roster: seq<nat>, components: seq<Component>, entries: seq<Entry>) {
    forall i | 0 <= i < |entries| :: Good(roster, components, entries, i)
  }

  /** The component the cell belongs to, the last of its id, takes the score. */
  ghost predicate Fits(components: seq<Component>, id: nat, score: Option<int>) {
    exists k ::
      && 0 <= k < |components| && components[k].id == id && (forall j | k < j < |components| :: components[j].id != id)
      && (score.Some? ==> 0 <= score.value && score.value <= components[k].max)
  }

  lemma {:induction false} ComponentIs(components: seq<Component>, n: nat, id: nat)
    requires n <= |components|
    ensures ComponentOf(components, n, id).Some? <==> exists k :: 0 <= k < n && components[k].id == id
    ensures ComponentOf(components, n, id).Some? ==>
      exists k :: 0 <= k < n && components[k] == ComponentOf(components, n, id).value && components[k].id == id
        && forall j | k < j < n :: components[j].id != id
  {
    if n > 0 && components[n - 1].id != id { ComponentIs(components, n - 1, id); }
  }

  lemma FitsExactly(components: seq<Component>, id: nat, score: Option<int>)
    ensures Within(ComponentOf(components, |components|, id), score) <==> Fits(components, id, score)
  {
    ComponentIs(components, |components|, id);
  }

  /**
   * A batch is accepted exactly when everybody named is in the class, every component is in
   * the scheme, every score is from nought to its maximum, and no cell is named twice.
   */
  lemma AcceptedExactly(roster: seq<nat>, components: seq<Component>, entries: seq<Entry>)
    ensures Accepted(roster, components, entries) <==>
      && (forall i | 0 <= i < |entries| ::
            entries[i].student in roster && Fits(components, entries[i].component, entries[i].score))
      && (forall i, j | 0 <= j < i < |entries| ::
            entries[j].student != entries[i].student || entries[j].component != entries[i].component)
  {
    hide Fits, ComponentOf;
    forall i | 0 <= i < |entries|
      ensures Good(roster, components, entries, i) <==>
        && entries[i].student in roster && Fits(components, entries[i].component, entries[i].score)
        && forall j | 0 <= j < i ::
             entries[j].student != entries[i].student || entries[j].component != entries[i].component
    {
      FitsExactly(components, entries[i].component, entries[i].score);
      assert Repeats(entries, i) <==> exists j :: 0 <= j < i && SameCell(entries[j], entries[i]);
    }
  }

  method FindComponent(components: seq<Component>, id: nat) returns (found: Option<Component>)
    ensures found == ComponentOf(components, |components|, id)
  {
    found := None;
    for i := 0 to |components|
      invariant found == ComponentOf(components, i, id)
    {
      if components[i].id == id { found := Some(components[i]); }
    }
  }

  /** Every bad cell is reported at once, and nothing else is. */
  method ValidateEntries(roster: seq<nat>, components: seq<Component>, entries: seq<Entry>)
    returns (bad: seq<nat>)
    ensures forall i: nat :: i in bad <==> i < |entries| && !Good(roster, components, entries, i)
    ensures bad == [] <==> Accepted(roster, components, entries)
  {
    bad := [];
    var seen: set<(nat, nat)> := {};
    for i := 0 to |entries|
      invariant forall k :: k in seen <==> exists j :: 0 <= j < i && (entries[j].student, entries[j].component) == k
      invariant forall k: nat :: k in bad <==> k < i && !Good(roster, components, entries, k)
    {
      var entry := entries[i];
      var component := FindComponent(components, entry.component);
      var problems := entry.student !in roster || component.None?
        || (entry.score.Some? && (entry.score.value < 0 || entry.score.value > component.value.max))
        || (entry.student, entry.component) in seen;
      assert (entry.student, entry.component) in seen <==> Repeats(entries, i);
      assert problems <==> !Good(roster, components, entries, i);
      seen := seen + {(entry.student, entry.component)};
      if problems { bad := bad + [i]; }
    }
    if bad == [] {
      forall i | 0 <= i < |entries| ensures Good(roster, components, entries, i) { assert i !in bad; }
    } else {
      assert bad[0] in bad;
    }
  }

  // ---------------------------------------------------------------------------
  // Saving
  // ---------------------------------------------------------------------------

  /** The first n rows without one cell. */
  function Cleared(scores: seq<ScoreRow>, n: nat, st: nat, su: nat, c: nat): seq<ScoreRow>
    requires n <= |scores|
  {
    if n == 0 then []
    else if Cell(scores[n - 1], st, su, c) then Cleared(scores, n - 1, st, su, c)
    else Cleared(scores, n - 1, st, su, c) + [scores[n - 1]]
  }

  /** Deletes the cell, or writes it: a table keeps no order, so a written row comes last. */
  function Written(scores: seq<ScoreRow>, su: nat, e: Entry): seq<ScoreRow> {
    var rest := Cleared(scores, |scores|, e.student, su, e.component);
    match e.score
    case None => rest
    case Some(x) => rest + [ScoreRow(e.student, su, e.component, x)]
  }

  function Saved(scores: seq<ScoreRow>, su: nat, entries: seq<Entry>, n: nat): seq<ScoreRow>
    requires n <= |entries|
  {
    if n == 0 then scores else Written(Saved(scores, su, entries, n - 1), su, entries[n - 1])
  }

  /** The row a cell holds, whichever it is. */
  function Held(scores: seq<ScoreRow>, st: nat, su: nat, c: nat): Option<int> {
    ScoreOf(scores, |scores|, st, su, c)
  }

  lemma {:induction false} ClearedHolds(scores: seq<ScoreRow>, n: nat, st: nat, su: nat, c: nat, key: (nat, nat, nat))
    requires n <= |scores|
    ensures Held(Cleared(scores, n, st, su, c), key.0, key.1, key.2)
            == if key == (st, su, c) then None else ScoreOf(scores, n, key.0, key.1, key.2)
  {
    if n > 0 {
      ClearedHolds(scores, n - 1, st, su, c, key);
      var rest := Cleared(scores, n - 1, st, su, c);
      HeldAppend(rest, scores[n - 1], key);
    }
  }

  lemma {:induction false} ScoreOfAgrees(a: seq<ScoreRow>, b: seq<ScoreRow>, n: nat, key: (nat, nat, nat))
    requires n <= |a| && n <= |b| && a[..n] == b[..n]
    ensures ScoreOf(a, n, key.0, key.1, key.2) == ScoreOf(b, n, key.0, key.1, key.2)
  {
    if n > 0 {
      assert a[n - 1] == a[..n][n - 1] == b[n - 1];
      assert a[..n - 1] == a[..n][..n - 1] == b[..n - 1];
      ScoreOfAgrees(a, b, n - 1, key);
    }
  }

  lemma HeldAppend(rows: seq<ScoreRow>, row: ScoreRow, key: (nat, nat, nat))
    ensures Held(rows + [row], key.0, key.1, key.2)
            == if Cell(row, key.0, key.1, key.2) then Some(row.score) else Held(rows, key.0, key.1, key.2)
  {
    ScoreOfAgrees(rows + [row], rows, |rows|, key);
  }

  /** One write sets its own cell and no other. */
  lemma WriteHolds(scores: seq<ScoreRow>, su: nat, e: Entry, key: (nat, nat, nat))
    ensures Held(Written(scores, su, e), key.0, key.1, key.2)
            == if key == (e.student, su, e.component) then e.score else Held(scores, key.0, key.1, key.2)
  {
    ClearedHolds(scores, |scores|, e.student, su, e.component, key);
    if e.score.Some? {
      HeldAppend(Cleared(scores, |scores|, e.student, su, e.component),
                 ScoreRow(e.student, su, e.component, e.score.value), key);
    }
  }

  /** A saved batch holds every cell it named, and leaves every other cell as it was. */
  lemma {:induction false} BatchHolds(scores: seq<ScoreRow>, su: nat, entries: seq<Entry>, n: nat, key: (nat, nat, nat))
    requires n <= |entries|
    requires forall i | 0 <= i < |entries| :: !Repeats(entries, i)
    ensures forall i | 0 <= i < n && key == (entries[i].student, su, entries[i].component) ::
      Held(Saved(scores, su, entries, n), key.0, key.1, key.2) == entries[i].score
    ensures (forall i | 0 <= i < n :: key != (entries[i].student, su, entries[i].component)) ==>
      Held(Saved(scores, su, entries, n), key.0, key.1, key.2) == Held(scores, key.0, key.1, key.2)
  {
    if n > 0 {
      BatchHolds(scores, su, entries, n - 1, key);
      WriteHolds(Saved(scores, su, entries, n - 1), su, entries[n - 1], key);
      forall i | 0 <= i < n && key == (entries[i].student, su, entries[i].component)
        ensures Held(Saved(scores, su, entries, n), key.0, key.1, key.2) == entries[i].score
      {
        assert !Repeats(entries, n - 1);
        assert i < n - 1 ==> !SameCell(entries[i], entries[n - 1]);
      }
    }
  }

  // ---------------------------------------------------------------------------
  // What the table always is
  // ---------------------------------------------------------------------------

  /** Every stored score belongs to a component of the scheme and lies within its maximum. */
  ghost predicate InScheme(scores: seq<ScoreRow>, components: seq<Component>) {
    forall k | 0 <= k < |scores| ::
      Within(ComponentOf(components, |components|, scores[k].component), Some(scores[k].score))
  }

  /** The unique index on student, subject and component. */
  ghost predicate OnePerCell(scores: seq<ScoreRow>) {
    forall i, j | 0 <= i < j < |scores| :: !Cell(scores[j], scores[i].student, scores[i].subject, scores[i].component)
  }

  lemma {:induction false} ClearedKeeps(scores: seq<ScoreRow>, n: nat, st: nat, su: nat, c: nat)
    requires n <= |scores|
    ensures forall row | row in Cleared(scores, n, st, su, c) :: row in scores[..n] && !Cell(row, st, su, c)
    ensures OnePerCell(scores) ==> OnePerCell(Cleared(scores, n, st, su, c))
  {
    if n > 0 {
      ClearedKeeps(scores, n - 1, st, su, c);
      assert scores[..n] == scores[..n - 1] + [scores[n - 1]];
      var rest := Cleared(scores, n - 1, st, su, c);
      if OnePerCell(scores) {
        forall i | 0 <= i < |rest|
          ensures !Cell(scores[n - 1], rest[i].student, rest[i].subject, rest[i].component)
        {
          assert rest[i] in rest;
          var k :| 0 <= k < n - 1 && scores[k] == rest[i];
        }
      }
    }
  }

  lemma {:induction false} SavedKeeps(scores: seq<ScoreRow>, su: nat, entries: seq<Entry>, n: nat,
                                      roster: seq<nat>, components: seq<Component>)
    requires n <= |entries| && Accepted(roster, components, entries)
    requires InScheme(scores, components) && OnePerCell(scores)
    ensures InScheme(Saved(scores, su, entries, n), components) && OnePerCell(Saved(scores, su, entries, n))
  {
    if n > 0 {
      SavedKeeps(scores, su, entries, n - 1, roster, components);
      assert Good(roster, components, entries, n - 1);
      WriteKeeps(Saved(scores, su, entries, n - 1), su, entries[n - 1], components);
    }
  }

  lemma {:induction false} WriteKeeps(scores: seq<ScoreRow>, su: nat, e: Entry, components: seq<Component>)
    requires Within(ComponentOf(components, |components|, e.component), e.score)
    requires InScheme(scores, components) && OnePerCell(scores)
    ensures InScheme(Written(scores, su, e), components) && OnePerCell(Written(scores, su, e))
  {
    ClearedKeeps(scores, |scores|, e.student, su, e.component);
    var rest := Cleared(scores, |scores|, e.student, su, e.component);
    forall k | 0 <= k < |rest|
      ensures Within(ComponentOf(components, |components|, rest[k].component), Some(rest[k].score))
      ensures !Cell(rest[k], e.student, su, e.component)
    {
      assert rest[k] in rest;
    }
  }
}
