/** The scheme, scale and score tables as the services write them. */
module AssessmentStore {
  import opened Wrappers
  import opened Grading
  import opened ComputeResults
  import opened ScoreEntries
  import opened Assessment
  import N = NumberSequence

  class AssessmentTables {
    var parts: seq<Part>
    var bands: seq<Band>
    var scores: seq<ScoreRow>
    var next: nat

    ghost function View(): Setup
      reads this
    {
      Setup(parts, bands, scores, next)
    }

    constructor ()
      ensures View() == START && Sound(View())
    {
      parts, bands, scores, next := [], [], [], 0;
    }

    /** createMany with the rows' order; ids are fresh. */
    method CreateParts(asked: seq<Asked>)
      modifies this`parts, this`next
      ensures parts == Fresh(asked, old(next)) && next == old(next) + |asked|
    {
      parts := [];
      var first := next;
      for i := 0 to |asked|
        invariant parts == Fresh(asked, first)[..i] && next == first + i
      {
        parts := parts + [Part(next, asked[i].name, asked[i].max)];
        next := next + 1;
      }
      assert parts == Fresh(asked, first);
    }

    /** Every component gets its new name; refused when the unique index is tripped. */
    method RenameParts(asked: seq<Asked>) returns (done: bool)
      requires Sound(View()) && |asked| == |parts| && ValidScheme(asked)
      modifies this`parts
      ensures done <==> Clear(Names(old(parts)), Parked(old(parts)), AskedNames(asked))
      ensures parts == if done then Renamed(old(parts), asked) else old(parts)
    {
      KeysApart(asked);
      var ok, names := RenameAll(parts, asked);
      if !ok { return false; }
      var renamed: seq<Part> := [];
      for i := 0 to |parts|
        invariant renamed == Renamed(parts, asked)[..i]
      {
        renamed := renamed + [parts[i].(name := names[i])];
      }
      assert renamed == Renamed(parts, asked);
      parts := renamed;
      done := true;
    }

    method SetScheme(asked: seq<Asked>) returns (done: bool)
      requires Sound(View())
      modifies this
      ensures Perform(old(View()), Op.SetScheme(asked)) == if done then Some(View()) else None
      ensures !done ==> View() == old(View())
      ensures done <==> ValidScheme(asked) && (old(scores) != [] ==> SameMaxima(old(parts), asked) && Renamable(old(parts), asked))
      ensures done ==>
        && bands == old(bands) && scores == old(scores) && |parts| == |asked|
        && (forall i | 0 <= i < |parts| :: parts[i].name == asked[i].name && parts[i].max == asked[i].max)
        && (forall i | 0 <= i < |parts| ::
              parts[i].id == if old(scores) != [] then old(parts)[i].id else old(next) + i)
    {
      ghost var before := parts;
      if |before| == |asked| { RenamableIs(before, asked); }
      var problems := ValidateScheme(asked);
      if problems != [] { return false; }
      if scores != [] {
        if !SameShape(parts, asked) { return false; }
        done := RenameParts(asked);
      } else {
        CreateParts(asked);
        done := true;
      }
    }

    method SetGrading(scale: seq<Band>) returns (done: bool)
      modifies this`bands
      ensures Perform(old(View()), Op.SetGrading(scale)) == if done then Some(View()) else None
      ensures done <==> ValidScale(scale)
      ensures bands == if done then scale else old(bands)
    {
      var problems := ValidateGradeBands(scale);
      if problems != [] { return false; }
      bands := scale;
      done := true;
    }

    method SetupDefaults()
      modifies this
      ensures Some(View()) == Perform(old(View()), Defaults)
      ensures scores == old(scores) && (old(parts) != [] ==> parts == old(parts))
      ensures old(parts) == [] ==>
        && |parts| == |DEFAULT_COMPONENTS|
        && forall i | 0 <= i < |parts| ::
             parts[i] == Part(old(next) + i, DEFAULT_COMPONENTS[i].name, DEFAULT_COMPONENTS[i].max)
      ensures bands == if old(bands) != [] then old(bands) else WAEC_BANDS
    {
      if parts == [] { CreateParts(DEFAULT_COMPONENTS); }
      if bands == [] { bands := WAEC_BANDS; }
    }
  }

  predicate SameMaxima(parts: seq<Part>, asked: seq<Asked>) {
    |asked| == |parts| && forall i | 0 <= i < |parts| :: asked[i].max == parts[i].max
  }

  /** No component is parked on a later one's name, and none is named as a later one is parked. */
  predicate Renamable(parts: seq<Part>, asked: seq<Asked>) {
    forall i, j | 0 <= i < j < |parts| && j < |asked| ::
      && "__renaming_" + N.Digits(parts[i].id) != parts[j].name
      && asked[i].name != "__renaming_" + N.Digits(parts[j].id)
  }

  lemma RenamableIs(parts: seq<Part>, asked: seq<Asked>)
    requires |parts| == |asked|
    ensures Clear(Names(parts), Parked(parts), AskedNames(asked)) <==> Renamable(parts, asked)
  {
    var names, parked, wanted := Names(parts), Parked(parts), AskedNames(asked);
    if Renamable(parts, asked) {
      forall i, j | 0 <= i < j < |parts| ensures parked[i] != names[j] && wanted[i] != parked[j] {
        assert "__renaming_" + N.Digits(parts[i].id) != parts[j].name;
      }
    }
    if Clear(names, parked, wanted) {
      forall i, j | 0 <= i < j < |parts| && j < |asked|
        ensures "__renaming_" + N.Digits(parts[i].id) != parts[j].name
        ensures asked[i].name != "__renaming_" + N.Digits(parts[j].id)
      {
        assert parked[i] != names[j] && wanted[i] != parked[j];
      }
    }
  }
}
