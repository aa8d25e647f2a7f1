/**
 * The grading scale. Marks are whole hundredths, so one mark is 100: a band is reached
 * by whole marks and never rounded up, and a scale is valid when it leaves no mark out.
 */
module Grading {
  import opened Wrappers
  import opened Sequences
  import opened Text

  const MARK: int := 100
  const TOP: int := 100 * MARK

  datatype Band = Band(grade: string, min: int, max: int, remark: string, isPass: bool)

  datatype Problem =
    | NoBands
    | Repeated(i: nat)
    | NotWhole(i: nat)
    | Inverted(i: nat)
    | NothingBelow
    | Overlap(i: nat)
    | Gap(i: nat)
    | WrongTop

  function Upper(s: string): string {
    seq(|s|, i requires 0 <= i < |s| => if 'a' <= s[i] <= 'z' then s[i] - 32 as char else s[i])
  }

  /** grade.trim().toUpperCase() */
  function Key(grade: string): string { Upper(Trim(grade)) }

  predicate Whole(x: int) { x % MARK == 0 }

  // ---------------------------------------------------------------------------
  // What a valid scale is
  // ---------------------------------------------------------------------------

  ghost predicate DistinctGrades(bands: seq<Band>) {
    forall i, j | 0 <= i < j < |bands| :: Key(bands[i].grade) != Key(bands[j].grade)
  }

  predicate WellShaped(b: Band) { Whole(b.min) && Whole(b.max) && b.min <= b.max }

  /** The same letter but for its case. */
  predicate SameLetter(x: char, y: char) {
    x == y || ('a' <= x <= 'z' && y as int == x as int - 32) || ('a' <= y <= 'z' && x as int == y as int - 32)
  }

  /** Two grades clash exactly when, without the space around them, they differ in case at most. */
  lemma GradesClashExactly(a: string, b: string)
    ensures Key(a) == Key(b) <==>
      |Trim(a)| == |Trim(b)| && forall i | 0 <= i < |Trim(a)| :: SameLetter(Trim(a)[i], Trim(b)[i])
  {
    hide Trim;
    var x, y := Trim(a), Trim(b);
    if Key(a) == Key(b) {
      assert |x| == |Upper(x)| == |Upper(y)| == |y|;
      forall i | 0 <= i < |x| ensures SameLetter(x[i], y[i]) { assert Upper(x)[i] == Upper(y)[i]; }
    }
  }

  predicate Covers(b: Band, mark: int) { b.min <= mark * MARK <= b.max }

  predicate InRange(b: Band) { 0 <= b.min && b.max <= TOP }

  predicate Covered(bands: seq<Band>, mark: int) { exists b | b in bands :: Covers(b, mark) }

  /** The bands are disjoint and together are exactly the whole marks 0 to 100. */
  ghost predicate Partition(bands: seq<Band>) {
    && (forall b | b in bands :: InRange(b))
    && (forall mark | 0 <= mark <= 100 :: Covered(bands, mark))
    && (forall mark, b, c | b in bands && c in bands && Covers(b, mark) && Covers(c, mark) :: b == c)
  }

  ghost predicate ValidScale(bands: seq<Band>) {
    DistinctGrades(bands) && (forall b | b in bands :: WellShaped(b)) && Partition(bands)
  }

  // ---------------------------------------------------------------------------
  // The validator
  // ---------------------------------------------------------------------------

  const ByMin: Band -> int := (b: Band) => b.min

  /** Sorted bands that start at 0, touch without overlapping and end at 100. */
  predicate Chain(sorted: seq<Band>) {
    && |sorted| > 0
    && sorted[0].min == 0
    && (forall i | 1 <= i < |sorted| :: sorted[i].min == sorted[i - 1].max + MARK)
    && sorted[|sorted| - 1].max == TOP
  }

  /** The first loop: each band on its own, and its label against those before it. */
  method CheckBands(bands: seq<Band>) returns (problems: seq<Problem>)
    ensures problems == [] <==> DistinctGrades(bands) && forall b | b in bands :: WellShaped(b)
  {
    problems := [];
    var grades: set<string> := {};
    for i := 0 to |bands|
      invariant grades == set k | 0 <= k < i :: Key(bands[k].grade)
      invariant problems == [] <==>
        (forall j, k | 0 <= j < k < i :: Key(bands[j].grade) != Key(bands[k].grade))
        && (forall k | 0 <= k < i :: WellShaped(bands[k]))
    {
      var band := bands[i];
      ghost var before := problems;
      if Key(band.grade) in grades { problems := problems + [Repeated(i)]; }
      grades := grades + {Key(band.grade)};
      if !Whole(band.min) || !Whole(band.max) { problems := problems + [NotWhole(i)]; }
      if band.min > band.max { problems := problems + [Inverted(i)]; }
    }
  }

  /** The second half: the sorted bands, neighbour by neighbour. */
  method CheckCover(sorted: seq<Band>) returns (problems: seq<Problem>)
    requires |sorted| > 0 && forall b | b in sorted :: WellShaped(b)
    ensures problems == [] <==> Chain(sorted)
  {
    problems := [];
    if sorted[0].min != 0 { problems := problems + [NothingBelow]; }
    for i := 1 to |sorted|
      invariant problems == [] <==>
        sorted[0].min == 0 && forall k | 1 <= k < i :: sorted[k].min == sorted[k - 1].max + MARK
    {
      var previous, current := sorted[i - 1], sorted[i];
      assert WellShaped(previous) && WellShaped(current);
      if current.min <= previous.max {
        problems := problems + [Overlap(i)];
      } else if current.min > previous.max + MARK {
        problems := problems + [Gap(i)];
      }
    }
    if sorted[|sorted| - 1].max != TOP { problems := problems + [WrongTop]; }
  }

  /** validateGradeBands finds no problem exactly when the scale is valid. */
  method ValidateGradeBands(bands: seq<Band>) returns (problems: seq<Problem>)
    ensures problems == [] <==> ValidScale(bands)
  {
    if |bands| == 0 {
      assert !Covered(bands, 0);
      return [NoBands];
    }
    problems := CheckBands(bands);
    if problems != [] { return; }
    ChainIffPartition(bands);
    problems := CheckCover(Sort(bands, ByMin));
  }

  // ---------------------------------------------------------------------------
  // Chains and partitions
  // ---------------------------------------------------------------------------

  lemma SortedMembers(bands: seq<Band>)
    ensures forall b :: b in Sort(bands, ByMin) <==> b in bands
  {
    forall b ensures b in Sort(bands, ByMin) <==> b in bands {
      assert b in multiset(Sort(bands, ByMin)) <==> b in multiset(bands);
    }
  }

  /** In a chain, the first n bands cover every mark from 0 to the end of the n-th, each once. */
  lemma {:induction false} ChainCovers(s: seq<Band>, n: nat, mark: int)
    requires 1 <= n <= |s| && s[0].min == 0 && (forall b | b in s :: WellShaped(b))
    requires forall i | 1 <= i < |s| :: s[i].min == s[i - 1].max + MARK
    requires 0 <= mark * MARK <= s[n - 1].max
    ensures exists i :: 0 <= i < n && Covers(s[i], mark)
  {
    assert s[n - 1] in s && WellShaped(s[n - 1]);
    if mark * MARK < s[n - 1].min {
      assert s[n - 2] in s && WellShaped(s[n - 2]);
      ChainCovers(s, n - 1, mark);
    } else {
      assert Covers(s[n - 1], mark);
    }
  }

  lemma {:induction false} ChainAscends(s: seq<Band>, i: nat, j: nat)
    requires i < j < |s| && forall b | b in s :: WellShaped(b)
    requires forall k | 1 <= k < |s| :: s[k].min == s[k - 1].max + MARK
    ensures s[i].max < s[j].min
    decreases j
  {
    assert s[j - 1] in s && WellShaped(s[j - 1]);
    if i < j - 1 { ChainAscends(s, i, j - 1); }
  }

  lemma {:induction false} ChainBounds(s: seq<Band>, i: nat)
    requires i < |s| && Chain(s) && forall b | b in s :: WellShaped(b)
    ensures InRange(s[i])
  {
    assert s[i] in s && WellShaped(s[i]);
    if 0 < i {
      assert s[0] in s && WellShaped(s[0]);
      ChainAscends(s, 0, i);
    }
    if i < |s| - 1 {
      assert s[|s| - 1] in s && WellShaped(s[|s| - 1]);
      ChainAscends(s, i, |s| - 1);
    }
  }

  lemma ChainPartitions(s: seq<Band>)
    requires Chain(s) && forall b | b in s :: WellShaped(b)
    ensures Partition(s)
  {
    forall b | b in s ensures InRange(b) {
      var i :| 0 <= i < |s| && s[i] == b;
      ChainBounds(s, i);
    }
    forall mark | 0 <= mark <= 100 ensures Covered(s, mark) {
      ChainCovers(s, |s|, mark);
      var i :| 0 <= i < |s| && Covers(s[i], mark);
      assert s[i] in s;
    }
    forall mark, b, c | b in s && c in s && Covers(b, mark) && Covers(c, mark) ensures b == c {
      var i :| 0 <= i < |s| && s[i] == b;
      var j :| 0 <= j < |s| && s[j] == c;
      if i < j { ChainAscends(s, i, j); }
      if j < i { ChainAscends(s, j, i); }
    }
  }

  ghost predicate NoRepeat(s: seq<Band>) { forall i, j | 0 <= i < j < |s| :: s[i] != s[j] }

  lemma NoRepeatSorted(bands: seq<Band>)
    requires DistinctGrades(bands)
    ensures NoRepeat(Sort(bands, ByMin))
  {
    var s := Sort(bands, ByMin);
    forall i, j | 0 <= i < j < |s| ensures s[i] != s[j] {
      CountOnce(bands, |bands|, s[i]);
      assert bands[..|bands|] == bands;
      if s[i] == s[j] { OccursTwice(s, i, j); }
    }
  }

  lemma {:induction false} CountOnce(bands: seq<Band>, n: nat, b: Band)
    requires n <= |bands| && DistinctGrades(bands)
    ensures multiset(bands[..n])[b] <= 1
    ensures multiset(bands[..n])[b] == 1 ==> exists i :: 0 <= i < n && bands[i] == b
  {
    hide Key;
    if n > 0 {
      CountOnce(bands, n - 1, b);
      assert bands[..n] == bands[..n - 1] + [bands[n - 1]];
      if multiset(bands[..n - 1])[b] == 1 {
        var i :| 0 <= i < n - 1 && bands[i] == b;
        assert bands[i] == b;
      }
    }
  }

  /** Neighbours of a sorted partition neither overlap nor leave a mark between them. */
  lemma PartitionTouches(s: seq<Band>, i: nat)
    requires SortedBy(s, ByMin) && NoRepeat(s) && Partition(s) && forall b | b in s :: WellShaped(b)
    requires 1 <= i < |s|
    ensures s[i].min == s[i - 1].max + MARK
  {
    var low, high := s[i - 1], s[i];
    assert low in s && high in s && WellShaped(low) && WellShaped(high) && InRange(low) && InRange(high);
    assert ByMin(low) <= ByMin(high);
    assert Covers(high, high.min / MARK);
    assert low.max < high.min by {
      if high.min <= low.max { assert Covers(low, high.min / MARK); }
    }
    assert forall k | i < k < |s| :: ByMin(high) <= ByMin(s[k]);
    assert forall k | 0 <= k < i - 1 :: ByMin(s[k]) <= ByMin(low);
    var next := low.max / MARK + 1;
    if high.min > low.max + MARK {
      assert Covered(s, next);
      var b :| b in s && Covers(b, next);
      var k :| 0 <= k < |s| && s[k] == b;
      assert Covers(low, low.min / MARK);
      if k < i - 1 { assert Covers(s[k], low.min / MARK); }
    }
  }

  lemma PartitionStarts(s: seq<Band>)
    requires |s| > 0 && SortedBy(s, ByMin) && Partition(s)
    ensures s[0].min == 0
  {
    assert s[0] in s && InRange(s[0]) && Covered(s, 0);
    var first :| first in s && Covers(first, 0);
    var f :| 0 <= f < |s| && s[f] == first;
    assert ByMin(s[0]) <= ByMin(s[f]);
  }

  lemma PartitionEnds(s: seq<Band>)
    requires |s| > 0 && Partition(s) && forall b | b in s :: WellShaped(b)
    requires forall i | 1 <= i < |s| :: s[i].min == s[i - 1].max + MARK
    ensures s[|s| - 1].max == TOP
  {
    var top := s[|s| - 1];
    assert top in s && InRange(top) && WellShaped(top) && Covered(s, 100);
    var last :| last in s && Covers(last, 100);
    assert InRange(last);
    var l :| 0 <= l < |s| && s[l] == last;
    if l < |s| - 1 { ChainAscends(s, l, |s| - 1); }
  }

  lemma PartitionChains(s: seq<Band>)
    requires |s| > 0 && SortedBy(s, ByMin) && NoRepeat(s) && Partition(s) && forall b | b in s :: WellShaped(b)
    ensures Chain(s)
  {
    forall i | 1 <= i < |s| ensures s[i].min == s[i - 1].max + MARK { PartitionTouches(s, i); }
    PartitionStarts(s);
    PartitionEnds(s);
  }

  /** The neighbour test on the sorted bands decides the partition of the unsorted ones. */
  lemma ChainIffPartition(bands: seq<Band>)
    requires |bands| > 0 && DistinctGrades(bands) && forall b | b in bands :: WellShaped(b)
    ensures (forall b | b in Sort(bands, ByMin) :: WellShaped(b))
    ensures Chain(Sort(bands, ByMin)) <==> Partition(bands)
  {
    var s := Sort(bands, ByMin);
    SortedMembers(bands);
    SortSorts(bands, ByMin);
    NoRepeatSorted(bands);
    assert Partition(s) <==> Partition(bands) by { SameMembersPartition(s, bands); }
    if Chain(s) { ChainPartitions(s); }
    if Partition(s) { PartitionChains(s); }
  }

  lemma SameMembersPartition(a: seq<Band>, b: seq<Band>)
    requires forall x :: x in a <==> x in b
    ensures Partition(a) <==> Partition(b)
  {
    forall mark: int ensures Covered(a, mark) <==> Covered(b, mark) {
      if Covered(a, mark) {
        var x :| x in a && Covers(x, mark);
        assert x in b;
      }
      if Covered(b, mark) {
        var x :| x in b && Covers(x, mark);
        assert x in a;
      }
    }
  }

  // ---------------------------------------------------------------------------
  // Looking a total up
  // ---------------------------------------------------------------------------

  /** floor(total): 74.5 is not yet 75. */
  function WholeMarks(total: int): int { total / MARK }

  /** bands.find(...): the first band holding the whole marks of the total. */
  function GradeFor(total: int, bands: seq<Band>): Option<Band> {
    if bands == [] then None
    else if Covers(bands[0], WholeMarks(total)) then Some(bands[0])
    else GradeFor(total, bands[1..])
  }

  lemma {:induction false} GradeForFinds(total: int, bands: seq<Band>)
    ensures match GradeFor(total, bands)
            case Some(b) => b in bands && Covers(b, WholeMarks(total))
            case None => !Covered(bands, WholeMarks(total))
  {
    if bands != [] && !Covers(bands[0], WholeMarks(total)) {
      GradeForFinds(total, bands[1..]);
      if Covered(bands, WholeMarks(total)) {
        var b :| b in bands && Covers(b, WholeMarks(total));
        assert b in bands[1..];
      }
    }
  }

  /** On a valid scale every total from 0 to 100 has exactly one band, and it is the one found. */
  lemma EveryTotalGraded(total: int, bands: seq<Band>)
    requires ValidScale(bands) && 0 <= total <= TOP
    ensures GradeFor(total, bands).Some?
    ensures forall b | b in bands :: Covers(b, WholeMarks(total)) <==> GradeFor(total, bands) == Some(b)
  {
    GradeForFinds(total, bands);
    assert Covered(bands, WholeMarks(total));
  }

  /** The grade does not depend on the order the bands are listed in. */
  lemma GradeIgnoresOrder(total: int, bands: seq<Band>, other: seq<Band>)
    requires ValidScale(bands) && multiset(bands) == multiset(other)
    ensures GradeFor(total, other) == GradeFor(total, bands)
  {
    GradeForFinds(total, bands);
    GradeForFinds(total, other);
    forall b ensures b in bands <==> b in other {
      assert b in multiset(bands) <==> b in multiset(other);
    }
  }
}
