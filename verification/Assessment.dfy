/**
 * How a subject is marked and how marks become grades, changed as a whole while scores
 * come in. Marks are whole hundredths. Operations run one at a time.
 */
module Assessment {
  import opened Wrappers
  import opened Sequences
  import opened Text
  import opened Grading
  import opened ComputeResults
  import opened ScoreEntries
  import N = NumberSequence

  /** A component of the scheme in use, in its order. */
  datatype Part = Part(id: nat, name: string, max: int)

  /** A component as asked for. */
  datatype Asked = Asked(name: string, max: int)

  datatype Setup = Setup(parts: seq<Part>, bands: seq<Band>, scores: seq<ScoreRow>, next: nat)

  datatype Op =
    | SetScheme(asked: seq<Asked>)
    | SetGrading(bands: seq<Band>)
    | Defaults
    | Save(subject: nat, roster: seq<nat>, entries: seq<Entry>)

  // ---------------------------------------------------------------------------
  // Validating a scheme
  // ---------------------------------------------------------------------------

  function Lower(s: string): string {
    seq(|s|, i requires 0 <= i < |s| => if 'A' <= s[i] <= 'Z' then s[i] + 32 as char else s[i])
  }

  /** name.trim().toLowerCase() */
  function NameKey(name: string): string { Lower(Trim(name)) }

  /** Two names clash exactly when, without the space around them, they differ in case at most. */
  lemma NamesClashExactly(a: string, b: string)
    ensures NameKey(a) == NameKey(b) <==>
      |Trim(a)| == |Trim(b)| && forall i | 0 <= i < |Trim(a)| :: SameLetter(Trim(a)[i], Trim(b)[i])
  {
    hide Trim;
    var x, y := Trim(a), Trim(b);
    if NameKey(a) == NameKey(b) {
      assert |x| == |Lower(x)| == |Lower(y)| == |y|;
      forall i | 0 <= i < |x| ensures SameLetter(x[i], y[i]) { assert Lower(x)[i] == Lower(y)[i]; }
    }
  }

  const MaxOfAsked: Asked -> int := (a: Asked) => a.max

  /** Components named apart, each worth whole marks, adding up to a hundred. */
  ghost predicate ValidScheme(asked: seq<Asked>) {
    && (forall i, j | 0 <= i < j < |asked| :: NameKey(asked[i].name) != NameKey(asked[j].name))
    && (forall i | 0 <= i < |asked| :: Whole(asked[i].max) && asked[i].max >= MARK)
    && Sum(asked, MaxOfAsked) == TOP
  }

  datatype SchemeProblem = Empty | AppearsTwice(i: nat) | NotWholeMarks(i: nat) | AddsUpTo(total: int)

  /** Nothing to say against the first n components, the total aside. */
  ghost predicate NothingWrong(asked: seq<Asked>, n: nat)
    requires n <= |asked|
  {
    && (forall j, k | 0 <= j < k < n :: NameKey(asked[j].name) != NameKey(asked[k].name))
    && (forall k | 0 <= k < n :: Whole(asked[k].max) && asked[k].max >= MARK)
  }

  lemma NothingWrongNext(asked: seq<Asked>, i: nat, names: set<string>)
    requires i < |asked| && names == set k | 0 <= k < i :: NameKey(asked[k].name)
    ensures names + {NameKey(asked[i].name)} == set k | 0 <= k < i + 1 :: NameKey(asked[k].name)
    ensures NothingWrong(asked, i + 1) <==>
      NothingWrong(asked, i) && NameKey(asked[i].name) !in names && Whole(asked[i].max) && asked[i].max >= MARK
  {
    hide NameKey;
    forall k | 0 <= k < i ensures NameKey(asked[k].name) in names {}
  }

  method ValidateScheme(asked: seq<Asked>) returns (problems: seq<SchemeProblem>)
    ensures problems == [] <==> ValidScheme(asked)
  {
    hide NameKey, Whole;
    if |asked| == 0 { return [Empty]; }
    problems := [];
    var names: set<string> := {};
    var total := 0;
    for i := 0 to |asked|
      invariant names == set k | 0 <= k < i :: NameKey(asked[k].name)
      invariant total == SumUpTo(asked, i, MaxOfAsked)
      invariant problems == [] <==> NothingWrong(asked, i)
    {
      NothingWrongNext(asked, i, names);
      if NameKey(asked[i].name) in names { problems := problems + [AppearsTwice(i)]; }
      names := names + {NameKey(asked[i].name)};
      if !Whole(asked[i].max) || asked[i].max < MARK { problems := problems + [NotWholeMarks(i)]; }
      total := total + asked[i].max;
    }
    if total != TOP { problems := problems + [AddsUpTo(total)]; }
  }

  // ---------------------------------------------------------------------------
  // Renaming in two passes
  // ---------------------------------------------------------------------------

  function Placeholder(id: nat): string { "__renaming_" + N.Digits(id) }

  function Names(parts: seq<Part>): (r: seq<string>)
    ensures |r| == |parts|
  {
    seq(|parts|, i requires 0 <= i < |parts| => parts[i].name)
  }

  function Parked(parts: seq<Part>): (r: seq<string>)
    ensures |r| == |parts|
  {
    seq(|parts|, i requires 0 <= i < |parts| => Placeholder(parts[i].id))
  }

  function AskedNames(asked: seq<Asked>): (r: seq<string>)
    ensures |r| == |asked|
  {
    seq(|asked|, i requires 0 <= i < |asked| => asked[i].name)
  }

  predicate Distinct(names: seq<string>) { forall i, j | 0 <= i < j < |names| :: names[i] != names[j] }

  /** The names after the first k rows have been given theirs. */
  function Mixed(done: seq<string>, rest: seq<string>, k: nat): seq<string>
    requires k <= |done| == |rest|
  {
    done[..k] + rest[k..]
  }

  /** No row given its name early takes the one a later row still has. */
  predicate Apart(wanted: seq<string>, names: seq<string>, n: nat)
    requires n <= |names| == |wanted|
  {
    forall i, j | 0 <= i < n && i < j < |names| :: wanted[i] != names[j]
  }

  /** No row's placeholder is a later row's name, and no row is renamed to a later row's placeholder. */
  predicate Clear(names: seq<string>, parked: seq<string>, wanted: seq<string>)
    requires |names| == |parked| == |wanted|
  {
    Apart(parked, names, |names|) && Apart(wanted, parked, |names|)
  }

  /** The unique index holds after each of the first n writes of a pass. */
  ghost predicate NeverTrips(wanted: seq<string>, names: seq<string>, n: nat)
    requires n <= |names| == |wanted|
  {
    forall k | 0 <= k <= n :: Distinct(Mixed(wanted, names, k))
  }

  method HasOther(names: seq<string>, k: nat, name: string) returns (found: bool)
    requires k < |names|
    ensures found <==> exists m :: 0 <= m < |names| && m != k && names[m] == name
  {
    found := false;
    for j := 0 to |names|
      invariant found <==> exists m :: 0 <= m < j && m != k && names[m] == name
    {
      if j != k && names[j] == name { found := true; }
    }
  }

  /** One pass of updates against the unique index; false when some row trips it. */
  method RenamePass(names: seq<string>, wanted: seq<string>) returns (ok: bool, after: seq<string>)
    requires |names| == |wanted| && Distinct(names) && Distinct(wanted)
    ensures ok <==> NeverTrips(wanted, names, |names|)
    ensures ok <==> Apart(wanted, names, |names|)
    ensures ok ==> after == wanted
  {
    ok, after := true, names;
    assert Mixed(wanted, names, 0) == names;
    for k := 0 to |names|
      invariant after == Mixed(wanted, names, k)
      invariant NeverTrips(wanted, names, k) && Apart(wanted, names, k)
    {
      var clash := HasOther(after, k, wanted[k]);
      MixedNext(wanted, names, k);
      if clash {
        MixedClash(wanted, names, k);
        return false, after;
      }
      MixedClear(wanted, names, k);
      after := after[k := wanted[k]];
    }
    assert Mixed(wanted, names, |names|) == wanted;
  }

  lemma MixedNext(done: seq<string>, rest: seq<string>, k: nat)
    requires k < |done| == |rest|
    ensures Mixed(done, rest, k)[k := done[k]] == Mixed(done, rest, k + 1)
    ensures forall m | 0 <= m < |done| :: Mixed(done, rest, k)[m] == if m < k then done[m] else rest[m]
    ensures forall m | 0 <= m < |done| :: Mixed(done, rest, k + 1)[m] == if m <= k then done[m] else rest[m]
  {
  }

  lemma MixedClash(done: seq<string>, rest: seq<string>, k: nat)
    requires k < |done| == |rest| && Distinct(done)
    requires exists m :: 0 <= m < |done| && m != k && Mixed(done, rest, k)[m] == done[k]
    ensures !NeverTrips(done, rest, |done|) && !Apart(done, rest, |done|)
  {
    MixedNext(done, rest, k);
    var m :| 0 <= m < |done| && m != k && Mixed(done, rest, k)[m] == done[k];
    assert k < m && done[k] == rest[m];
    assert Mixed(done, rest, k + 1)[k] == Mixed(done, rest, k + 1)[m];
    assert !Distinct(Mixed(done, rest, k + 1));
  }

  lemma MixedClear(done: seq<string>, rest: seq<string>, k: nat)
    requires k < |done| == |rest| && NeverTrips(done, rest, k) && Apart(done, rest, k)
    requires forall m | 0 <= m < |done| && m != k :: Mixed(done, rest, k)[m] != done[k]
    ensures NeverTrips(done, rest, k + 1) && Apart(done, rest, k + 1)
  {
    MixedNext(done, rest, k);
    assert Distinct(Mixed(done, rest, k));
    forall j | k < j < |done| ensures done[k] != rest[j] { assert Mixed(done, rest, k)[j] == rest[j]; }
    assert Distinct(Mixed(done, rest, k + 1));
  }

  /**
   * Park every row on its placeholder, then give each its name. The unique index is
   * tripped at no write of either pass exactly when no row's placeholder is the name of a
   * later row, and no row is renamed to a later row's placeholder.
   */
  method RenameAll(parts: seq<Part>, asked: seq<Asked>) returns (ok: bool, after: seq<string>)
    requires |asked| == |parts| && Distinct(Names(parts)) && Distinct(AskedNames(asked)) && DistinctIds(parts)
    ensures ok <==> Clear(Names(parts), Parked(parts), AskedNames(asked))
    ensures ok ==> after == AskedNames(asked)
  {
    ParkedDiffer(parts);
    ok, after := RenamePass(Names(parts), Parked(parts));
    if ok {
      ok, after := RenamePass(Parked(parts), AskedNames(asked));
    }
  }

  ghost predicate DistinctIds(parts: seq<Part>) { forall i, j | 0 <= i < j < |parts| :: parts[i].id != parts[j].id }

  lemma ParkedDiffer(parts: seq<Part>)
    requires DistinctIds(parts)
    ensures Distinct(Parked(parts))
  {
    forall i, j | 0 <= i < j < |parts| ensures Parked(parts)[i] != Parked(parts)[j] {
      var a, b := N.Digits(parts[i].id), N.Digits(parts[j].id);
      assert Placeholder(parts[i].id)[11..] == a && Placeholder(parts[j].id)[11..] == b;
      N.ValueOfDigits(parts[i].id);
      N.ValueOfDigits(parts[j].id);
    }
  }

  // ---------------------------------------------------------------------------
  // The operations
  // ---------------------------------------------------------------------------

  const DEFAULT_COMPONENTS: seq<Asked> :=
    [Asked("1st CA", 10 * MARK), Asked("2nd CA", 10 * MARK), Asked("3rd CA", 10 * MARK), Asked("Exam", 70 * MARK)]

  const WAEC_BANDS: seq<Band> := [
    Band("A1", 75 * MARK, 100 * MARK, "Excellent", true),
    Band("B2", 70 * MARK, 74 * MARK, "Very Good", true),
    Band("B3", 65 * MARK, 69 * MARK, "Good", true),
    Band("C4", 60 * MARK, 64 * MARK, "Credit", true),
    Band("C5", 55 * MARK, 59 * MARK, "Credit", true),
    Band("C6", 50 * MARK, 54 * MARK, "Credit", true),
    Band("D7", 45 * MARK, 49 * MARK, "Pass", true),
    Band("E8", 40 * MARK, 44 * MARK, "Pass", true),
    Band("F9", 0, 39 * MARK, "Fail", false)
  ]

  function Components(parts: seq<Part>): (r: seq<Component>)
    ensures |r| == |parts|
  {
    seq(|parts|, i requires 0 <= i < |parts| => Component(parts[i].id, parts[i].max))
  }

  function Fresh(asked: seq<Asked>, next: nat): (r: seq<Part>)
    ensures |r| == |asked|
  {
    seq(|asked|, i requires 0 <= i < |asked| => Part(next + i, asked[i].name, asked[i].max))
  }

  predicate SameShape(parts: seq<Part>, asked: seq<Asked>) {
    |parts| == |asked| && forall i | 0 <= i < |parts| :: parts[i].max == asked[i].max
  }

  function Renamed(parts: seq<Part>, asked: seq<Asked>): (r: seq<Part>)
    requires |parts| == |asked|
    ensures |r| == |parts|
  {
    seq(|parts|, i requires 0 <= i < |parts| => parts[i].(name := asked[i].name))
  }

  /** Once a score exists the shape is fixed and only names change; before, the scheme is replaced. */
  ghost function DoScheme(s: Setup, asked: seq<Asked>): Option<Setup> {
    if !ValidScheme(asked) then None
    else if s.scores == [] then Some(s.(parts := Fresh(asked, s.next), next := s.next + |asked|))
    else if !SameShape(s.parts, asked) || !Clear(Names(s.parts), Parked(s.parts), AskedNames(asked)) then None
    else Some(s.(parts := Renamed(s.parts, asked)))
  }

  function WithScheme(s: Setup): Setup {
    if s.parts == [] then
      s.(parts := Fresh(DEFAULT_COMPONENTS, s.next), next := s.next + |DEFAULT_COMPONENTS|)
    else s
  }

  function WithScale(s: Setup): Setup { if s.bands == [] then s.(bands := WAEC_BANDS) else s }

  ghost function Perform(s: Setup, op: Op): Option<Setup> {
    match op
    case SetScheme(asked) => DoScheme(s, asked)
    case SetGrading(bands) => if ValidScale(bands) then Some(s.(bands := bands)) else None
    case Defaults => Some(WithScale(WithScheme(s)))
    case Save(su, roster, entries) =>
      if s.parts == [] || !Accepted(roster, Components(s.parts), entries) then None
      else Some(s.(scores := Saved(s.scores, su, entries, |entries|)))
  }

  const START := Setup([], [], [], 0)

  ghost function Run(ops: seq<Op>): Setup {
    if ops == [] then START
    else
      var before := Run(ops[..|ops| - 1]);
      match Perform(before, ops[|ops| - 1])
      case None => before
      case Some(after) => after
  }

  // ---------------------------------------------------------------------------
  // The invariant
  // ---------------------------------------------------------------------------

  const MaxOfPart: Part -> int := (p: Part) => p.max

  ghost predicate SchemeOk(parts: seq<Part>, next: nat) {
    && DistinctIds(parts) && Distinct(Names(parts))
    && (forall i | 0 <= i < |parts| :: parts[i].id < next && parts[i].max >= MARK)
    && (parts != [] ==> Sum(parts, MaxOfPart) == TOP)
  }

  ghost predicate Sound(s: Setup) {
    && SchemeOk(s.parts, s.next)
    && (s.bands != [] ==> ValidScale(s.bands))
    && InScheme(s.scores, Components(s.parts)) && OnePerCell(s.scores)
  }

  lemma KeysApart(asked: seq<Asked>)
    requires ValidScheme(asked)
    ensures Distinct(AskedNames(asked))
  {
    forall i, j | 0 <= i < j < |asked| ensures AskedNames(asked)[i] != AskedNames(asked)[j] {
      assert NameKey(asked[i].name) != NameKey(asked[j].name);
    }
  }

  lemma FreshOk(asked: seq<Asked>, next: nat)
    requires ValidScheme(asked)
    ensures SchemeOk(Fresh(asked, next), next + |asked|)
  {
    KeysApart(asked);
    var parts := Fresh(asked, next);
    assert Names(parts) == AskedNames(asked);
    SumFresh(asked, next, |asked|);
  }

  lemma {:induction false} SumFresh(asked: seq<Asked>, next: nat, n: nat)
    requires n <= |asked|
    ensures SumUpTo(Fresh(asked, next), n, MaxOfPart) == SumUpTo(asked, n, MaxOfAsked)
  {
    if n > 0 { SumFresh(asked, next, n - 1); }
  }

  lemma {:induction false} SumRenamed(parts: seq<Part>, asked: seq<Asked>, n: nat)
    requires n <= |parts| == |asked|
    ensures SumUpTo(Renamed(parts, asked), n, MaxOfPart) == SumUpTo(parts, n, MaxOfPart)
  {
    if n > 0 { SumRenamed(parts, asked, n - 1); }
  }

  lemma RenamedOk(s: Setup, asked: seq<Asked>)
    requires Sound(s) && ValidScheme(asked) && |asked| == |s.parts|
    ensures Sound(s.(parts := Renamed(s.parts, asked)))
  {
    KeysApart(asked);
    var parts := Renamed(s.parts, asked);
    assert Names(parts) == AskedNames(asked);
    SumRenamed(s.parts, asked, |s.parts|);
    assert Components(parts) == Components(s.parts);
  }

  lemma ShortNameKey(name: string)
    requires |name| > 1 && !IsSpace(name[0]) && !IsSpace(name[|name| - 1])
    ensures NameKey(name) == Lower(name) && Key(name) == Upper(name)
  {
    assert TrimStart(name) == name && TrimEnd(name) == name;
  }

  lemma DefaultsAddUp()
    ensures Sum(DEFAULT_COMPONENTS, MaxOfAsked) == TOP
  {
    var d := DEFAULT_COMPONENTS;
    assert SumUpTo(d, 1, MaxOfAsked) == SumUpTo(d, 0, MaxOfAsked) + d[0].max;
    assert SumUpTo(d, 2, MaxOfAsked) == SumUpTo(d, 1, MaxOfAsked) + d[1].max;
    assert SumUpTo(d, 3, MaxOfAsked) == SumUpTo(d, 2, MaxOfAsked) + d[2].max;
    assert SumUpTo(d, 4, MaxOfAsked) == SumUpTo(d, 3, MaxOfAsked) + d[3].max;
  }

  /** The default names already differ in their first letters. */
  lemma DefaultNamesDiffer(i: nat, j: nat)
    requires i < j < |DEFAULT_COMPONENTS|
    ensures NameKey(DEFAULT_COMPONENTS[i].name) != NameKey(DEFAULT_COMPONENTS[j].name)
  {
    var a, b := DEFAULT_COMPONENTS[i].name, DEFAULT_COMPONENTS[j].name;
    ShortNameKey(a);
    ShortNameKey(b);
    assert a[0] != b[0] && Lower(a)[0] != Lower(b)[0];
  }

  lemma DefaultSchemeIsValid()
    ensures ValidScheme(DEFAULT_COMPONENTS)
  {
    hide NameKey;
    DefaultsAddUp();
    forall i, j | 0 <= i < j < |DEFAULT_COMPONENTS|
      ensures NameKey(DEFAULT_COMPONENTS[i].name) != NameKey(DEFAULT_COMPONENTS[j].name)
    {
      DefaultNamesDiffer(i, j);
    }
  }

  /** The shape of the nine bands: five marks each, but for the first and the last. */
  ghost predicate FiveMarksEach(w: seq<Band>) {
    && |w| == 9
    && (forall i | 0 <= i < 9 :: w[i].max == if i == 0 then TOP else if i == 8 then 39 * MARK else (79 - 5 * i) * MARK)
    && (forall i | 0 <= i < 9 :: w[i].min == if i == 8 then 0 else (75 - 5 * i) * MARK)
  }

  lemma FiveMarksCover(w: seq<Band>, mark: int)
    requires FiveMarksEach(w) && 0 <= mark <= 100
    ensures Covered(w, mark)
  {
    var i := if mark >= 75 then 0 else if mark < 40 then 8 else 8 - (mark - 35) / 5;
    assert w[i] in w && Covers(w[i], mark);
  }

  lemma FiveMarksOnce(w: seq<Band>, i: nat, j: nat, mark: int)
    requires FiveMarksEach(w) && i < 9 && j < 9 && Covers(w[i], mark) && Covers(w[j], mark)
    ensures i == j
  {
  }

  lemma FiveMarksPartition(w: seq<Band>)
    requires FiveMarksEach(w)
    ensures Partition(w) && forall b | b in w :: WellShaped(b)
  {
    forall b | b in w ensures InRange(b) && WellShaped(b) {
      var i :| 0 <= i < |w| && w[i] == b;
    }
    forall mark | 0 <= mark <= 100 ensures Covered(w, mark) { FiveMarksCover(w, mark); }
    forall mark, b, c | b in w && c in w && Covers(b, mark) && Covers(c, mark) ensures b == c {
      var i :| 0 <= i < |w| && w[i] == b;
      var j :| 0 <= j < |w| && w[j] == c;
      FiveMarksOnce(w, i, j, mark);
    }
  }

  /** The digits of the WAEC grades tell them apart. */
  lemma WaecGradesDiffer(i: nat, j: nat)
    requires i < j < |WAEC_BANDS|
    ensures Key(WAEC_BANDS[i].grade) != Key(WAEC_BANDS[j].grade)
  {
    var a, b := WAEC_BANDS[i].grade, WAEC_BANDS[j].grade;
    ShortNameKey(a);
    ShortNameKey(b);
    assert a[1] != b[1] && Upper(a)[1] == a[1] && Upper(b)[1] == b[1];
  }

  lemma WaecIsValid()
    ensures ValidScale(WAEC_BANDS)
  {
    assert FiveMarksEach(WAEC_BANDS);
    FiveMarksPartition(WAEC_BANDS);
    forall i, j | 0 <= i < j < |WAEC_BANDS| ensures Key(WAEC_BANDS[i].grade) != Key(WAEC_BANDS[j].grade) {
      WaecGradesDiffer(i, j);
    }
  }

  lemma SaveOk(s: Setup, su: nat, roster: seq<nat>, entries: seq<Entry>)
    requires Sound(s) && Accepted(roster, Components(s.parts), entries)
    ensures Sound(s.(scores := Saved(s.scores, su, entries, |entries|)))
  {
    SavedKeeps(s.scores, su, entries, |entries|, roster, Components(s.parts));
  }

  /** Scores are only ever entered against a scheme. */
  lemma ScoredMeansScheme(s: Setup)
    requires Sound(s) && s.scores != []
    ensures s.parts != []
  {
    var components := Components(s.parts);
    assert Within(ComponentOf(components, |components|, s.scores[0].component), Some(s.scores[0].score));
  }

  lemma PerformKeepsSound(s: Setup, op: Op)
    requires Sound(s) && Perform(s, op).Some?
    ensures Sound(Perform(s, op).value)
  {
    match op
    case SetScheme(asked) => if s.scores == [] { FreshOk(asked, s.next); } else { RenamedOk(s, asked); }
    case SetGrading(_) =>
    case Defaults =>
      DefaultSchemeIsValid();
      WaecIsValid();
      if s.scores != [] { ScoredMeansScheme(s); }
      if s.parts == [] {
        FreshOk(DEFAULT_COMPONENTS, s.next);
      }
    case Save(su, roster, entries) => SaveOk(s, su, roster, entries);
  }

  /** Scores are saved against a scheme, cell by cell, and leave scheme and scale alone. */
  lemma SaveExactly(s: Setup, su: nat, roster: seq<nat>, entries: seq<Entry>, key: (nat, nat, nat))
    ensures var after := Perform(s, Op.Save(su, roster, entries));
      && (after.Some? <==> s.parts != [] && Accepted(roster, Components(s.parts), entries))
      && (after.Some? ==>
            && after.value == s.(scores := after.value.scores)
            && (forall i | 0 <= i < |entries| && key == (entries[i].student, su, entries[i].component) ::
                  Held(after.value.scores, key.0, key.1, key.2) == entries[i].score)
            && ((forall i | 0 <= i < |entries| :: key != (entries[i].student, su, entries[i].component)) ==>
                  Held(after.value.scores, key.0, key.1, key.2) == Held(s.scores, key.0, key.1, key.2)))
  {
    if Accepted(roster, Components(s.parts), entries) {
      forall i | 0 <= i < |entries| ensures !Repeats(entries, i) {
        assert Good(roster, Components(s.parts), entries, i);
      }
      BatchHolds(s.scores, su, entries, |entries|, key);
    }
  }

  /**
   * Over any run of scheme, grading and score changes: the components are distinct and
   * add up to a hundred, the scale is valid, and every stored score belongs to a
   * component of the scheme and lies within its maximum.
   */
  lemma {:induction false} EveryRunIsSound(ops: seq<Op>)
    ensures Sound(Run(ops))
  {
    if ops != [] {
      var before := Run(ops[..|ops| - 1]);
      EveryRunIsSound(ops[..|ops| - 1]);
      if Perform(before, ops[|ops| - 1]).Some? { PerformKeepsSound(before, ops[|ops| - 1]); }
    }
  }

  // ---------------------------------------------------------------------------
  // Totals and grades
  // ---------------------------------------------------------------------------

  lemma {:induction false} ComponentFound(parts: seq<Part>, n: nat, i: nat)
    requires DistinctIds(parts) && i < n <= |parts|
    ensures ComponentOf(Components(parts), n, parts[i].id) == Some(Component(parts[i].id, parts[i].max))
  {
    if i < n - 1 { ComponentFound(parts, n - 1, i); }
  }

  lemma {:induction false} ScoreIsStored(scores: seq<ScoreRow>, n: nat, st: nat, su: nat, c: nat)
    requires n <= |scores| && ScoreOf(scores, n, st, su, c).Some?
    ensures exists row | row in scores :: row.component == c && row.score == ScoreOf(scores, n, st, su, c).value
  {
    if Cell(scores[n - 1], st, su, c) { assert scores[n - 1] in scores; } else { ScoreIsStored(scores, n - 1, st, su, c); }
  }

  /** A computation on this scheme and scale, over some of the stored scores. */
  ghost predicate Uses(input: Input, s: Setup) {
    input.components == Components(s.parts) && input.bands == s.bands && forall row | row in input.scores :: row in s.scores
  }

  lemma PartInRange(input: Input, s: Setup, st: nat, su: nat, i: nat)
    requires Sound(s) && Uses(input, s) && i < |s.parts|
    ensures 0 <= Mark(Parts(input, st, su)[i]) <= s.parts[i].max
  {
    var part := Parts(input, st, su)[i];
    if part.Some? {
      ScoreIsStored(input.scores, |input.scores|, st, su, s.parts[i].id);
      var row :| row in input.scores && row.component == s.parts[i].id && row.score == part.value;
      var k :| 0 <= k < |s.scores| && s.scores[k] == row;
      ComponentFound(s.parts, |s.parts|, i);
    }
  }

  lemma {:induction false} TotalInRange(input: Input, s: Setup, st: nat, su: nat, n: nat)
    requires Sound(s) && Uses(input, s) && n <= |s.parts|
    ensures 0 <= SumUpTo(Parts(input, st, su), n, Marks) <= SumUpTo(s.parts, n, MaxOfPart)
  {
    if n > 0 {
      TotalInRange(input, s, st, su, n - 1);
      PartInRange(input, s, st, su, n - 1);
    }
  }

  /**
   * So every subject total computed after any run is a percentage, and once a scheme and
   * a scale are set every one of them has a grade.
   */
  lemma EveryResultIsGraded(ops: seq<Op>, input: Input, st: nat, su: Subject, place: int)
    requires Uses(input, Run(ops))
    ensures 0 <= SubjectTotal(input, st, su.id) <= TOP
    ensures Run(ops).bands != [] ==> LineOn(input, st, su, place).grade.Some?
  {
    var s := Run(ops);
    EveryRunIsSound(ops);
    TotalInRange(input, s, st, su.id, |s.parts|);
    if s.bands != [] { EveryTotalGraded(SubjectTotal(input, st, su.id), s.bands); }
  }
}
