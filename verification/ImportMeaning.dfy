/** What an import writes for which rows, said of the file, the roll and the parents on file. */
module ImportMeaning {
  import opened Wrappers
  import opened NumberSequence
  import opened Enrolment
  import opened EnrolmentMeaning
  import opened StudentImport

  // ---------------------------------------------------------------------------
  // Seats
  // ---------------------------------------------------------------------------

  /** The earlier rows for the arm with nothing else against them. */
  function EarlierFor(rows: seq<Row>, refs: seq<Ref>, n: nat, arm: nat): set<nat>
    requires n <= |rows| == |refs|
  {
    set i | 0 <= i < n && !rows[i].bad && !refs[i].Unusable? && rows[i].arm == Some(arm)
  }

  lemma {:induction false} WantingCounts(rows: seq<Row>, refs: seq<Ref>, n: nat, arm: nat)
    requires n <= |rows| == |refs|
    ensures Wanting(rows, refs, n, arm) == |EarlierFor(rows, refs, n, arm)|
  {
    if n > 0 {
      WantingCounts(rows, refs, n - 1, arm);
      assert EarlierFor(rows, refs, n, arm) == EarlierFor(rows, refs, n - 1, arm)
        + if Otherwise(rows, refs, n - 1) && rows[n - 1].arm == Some(arm) then {n - 1} else {};
    }
  }

  /**
   * A row is written, or could be, exactly when no check refused it, its parent can be had,
   * and the roll of its arm with the earlier such rows leaves a seat.
   */
  lemma ValidExactly(s: School, rows: seq<Row>, refs: seq<Ref>, i: nat)
    requires i < |rows| == |refs|
    ensures Valid(s, rows, refs, i) <==>
      && !rows[i].bad && !refs[i].Unusable?
      && (rows[i].arm.Some? && rows[i].arm.value in s.arms && s.arms[rows[i].arm.value].Some? ==>
            |ActiveIn(s.students, |s.students|, rows[i].arm.value)| + |EarlierFor(rows, refs, i, rows[i].arm.value)|
            < s.arms[rows[i].arm.value].value)
  {
    if rows[i].arm.Some? {
      RollCounts(s.students, |s.students|, rows[i].arm.value);
      WantingCounts(rows, refs, i, rows[i].arm.value);
    }
  }

  /** All of the rows when every one is valid, or in a partial import the valid ones, in file order; otherwise none. */
  lemma WrittenExactly(s: School, rows: seq<Row>, refs: seq<Ref>, o: Options)
    requires |rows| == |refs|
    ensures var picked := ToWrite(s, rows, refs, o);
      && (forall i: nat :: i in picked <==>
            && i < |rows| && Valid(s, rows, refs, i)
            && (o.atomic ==> forall k | 0 <= k < |rows| :: Valid(s, rows, refs, k)))
      && forall j, k | 0 <= j < k < |picked| :: picked[j] < picked[k]
  {
    hide Valid;
    forall i: nat | i < |rows| ensures i in ValidRows(s, rows, refs, |rows|) <==> Valid(s, rows, refs, i) {
      ValidRowsAll(s, rows, refs, |rows|, i);
    }
    if o.atomic {
      if forall k | 0 <= k < |rows| :: Valid(s, rows, refs, k) {
        AllValid(s, rows, refs, |rows|);
      } else if |ValidRows(s, rows, refs, |rows|)| >= |rows| && rows != [] {
        ValidRowsAll(s, rows, refs, |rows|, 0);
        var valid := ValidRows(s, rows, refs, |rows|);
        forall k | 0 <= k < |rows| ensures Valid(s, rows, refs, k) { assert valid[k] == k; }
      }
    }
  }

  // ---------------------------------------------------------------------------
  // Numbers
  // ---------------------------------------------------------------------------

  /** The rows before this one that take a generated number of the year. */
  function EarlierOf(rows: seq<Row>, picked: seq<nat>, n: nat, year: nat): set<nat>
    requires n <= |picked| && forall k | 0 <= k < |picked| :: picked[k] < |rows|
  {
    set k | 0 <= k < n && rows[picked[k]].supplied.None? && rows[picked[k]].year == year
  }

  lemma {:induction false} NeedingCounts(rows: seq<Row>, picked: seq<nat>, n: nat, year: nat)
    requires n <= |picked| && forall k | 0 <= k < |picked| :: picked[k] < |rows|
    ensures Needing(rows, picked, n, year) == |EarlierOf(rows, picked, n, year)|
  {
    if n > 0 {
      NeedingCounts(rows, picked, n - 1, year);
      var row := rows[picked[n - 1]];
      assert EarlierOf(rows, picked, n, year)
             == EarlierOf(rows, picked, n - 1, year) + if row.supplied.None? && row.year == year then {n - 1} else {};
    }
  }

  /** The sequence a number carries for the year, among those found by the year at their head. */
  ghost predicate Carries(number: string, year: nat, sequence: nat) {
    Digits(year) + "/" <= number && Parse(number, ADMISSION_WIDTH) == Some((year, sequence))
  }

  /** One past the highest sequence found for the year, or one. */
  lemma NextExactly(s: School, year: nat)
    ensures forall i, q: nat | 0 <= i < |s.students| && Carries(s.students[i].number, year, q) :: q < NextOf(s, year)
    ensures NextOf(s, year) == 1
            || exists i, q: nat :: 0 <= i < |s.students| && Carries(s.students[i].number, year, q) && NextOf(s, year) == q + 1
  {
    hide Parse;
    var read := ReadNumbers(s.students, |s.students|, year);
    forall i, q: nat | 0 <= i < |s.students| && Carries(s.students[i].number, year, q) ensures q < NextOf(s, year) {
      ReadAre(s.students, |s.students|, year, s.students[i].number);
      var k :| 0 <= k < |read| && read[k] == s.students[i].number;
      HighestBounds(read, year, ADMISSION_WIDTH, k);
    }
    if NextOf(s, year) > 1 {
      var k := HighestIsThere(read, year, ADMISSION_WIDTH);
      assert read[k] in read;
      ReadAre(s.students, |s.students|, year, read[k]);
      var i :| 0 <= i < |s.students| && s.students[i].number == read[k];
      assert Carries(s.students[i].number, year, (NextOf(s, year) - 1) as nat);
    }
  }

  /**
   * A row's number: the one supplied, or one that reads as its year and as the next
   * sequence of the year past those on file and those generated for earlier rows.
   */
  lemma NumberedExactly(s: School, rows: seq<Row>, picked: seq<nat>, k: nat)
    requires k < |picked| && OneLine(s.prefix) && forall k | 0 <= k < |picked| :: picked[k] < |rows|
    requires rows[picked[k]].supplied.None? ==> FourDigitYear(rows[picked[k]].year)
    ensures var row := rows[picked[k]];
      if row.supplied.Some? then NumberFor(s, rows, picked, k) == row.supplied.value
      else Parse(NumberFor(s, rows, picked, k), ADMISSION_WIDTH)
           == Some((row.year, NextOf(s, row.year) + |EarlierOf(rows, picked, k, row.year)|))
  {
    hide Parse, FormatAdmission, NextOf;
    if rows[picked[k]].supplied.None? {
      GeneratedReads(s, rows, picked, k);
      NeedingCounts(rows, picked, k, rows[picked[k]].year);
    }
  }

  // ---------------------------------------------------------------------------
  // Parents
  // ---------------------------------------------------------------------------

  /** Each written row's arm and link: its parent on file, the one created for it, or none when it has none. */
  lemma LinkedExactly(s: School, rows: seq<Row>, found: seq<Found>, canonical: string -> string, o: Options, w: Written, k: nat)
    requires Imports(s, rows, found, canonical, o, w) && k < |Picked(s, rows, found, canonical, o)|
    ensures var i := Picked(s, rows, found, canonical, o)[k];
      var ref := RefOf(rows, i, found, canonical, o);
      && w.places[k] == rows[i].arm
      && (ref.Existing? ==> w.links[k] == ToExisting(ref.id))
      && (ref.NoParent? ==> w.links[k] == NoLink)
      && (ref.New? ==> w.links[k].ToCreated?)
      && !ref.Unusable?
  {
    var i := Picked(s, rows, found, canonical, o)[k];
    if RefOf(rows, i, found, canonical, o).New? { WrittenAreLinked(s, rows, found, canonical, o, w, k); }
  }

  /** A parent created is the one the first row to bring it gave. */
  lemma CreatedExactly(s: School, rows: seq<Row>, found: seq<Found>, canonical: string -> string, o: Options, w: Written, c: nat)
    requires Imports(s, rows, found, canonical, o, w) && c < |w.created|
    ensures exists j ::
      && 0 <= j < |rows| && Brings(rows, j, found, canonical, o, canonical(w.created[c].phone))
      && rows[j].parent == Some(w.created[c])
  {
    hide PendingAfter, RefOf, Picked, ToWrite;
    CreatedByKey(s, rows, found, canonical, o, w, c);
    var key := canonical(w.created[c].phone);
    PendingIsSaid(rows, |rows|, found, canonical, o);
    var some :| 0 <= some < |rows| && RefOf(rows, some, found, canonical, o) == New(key);
    var j := FirstToBring(rows, some, found, canonical, o, key);
    assert Brings(rows, j, found, canonical, o, key);
  }

  lemma {:induction false} FirstToBring(rows: seq<Row>, n: nat, found: seq<Found>, canonical: string -> string, o: Options,
                                        key: string) returns (j: nat)
    requires n < |rows| && RefOf(rows, n, found, canonical, o) == New(key)
    ensures j <= n && Brings(rows, j, found, canonical, o, key)
  {
    hide PendingAfter, RefOf;
    if k :| 0 <= k < n && RefOf(rows, k, found, canonical, o) == New(key) {
      j := FirstToBring(rows, k, found, canonical, o, key);
    } else {
      PendingNext(rows, n, found, canonical, o);
      j := n;
    }
  }
}
