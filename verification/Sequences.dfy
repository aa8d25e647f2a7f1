/** Sums over sequences and finite sets, and a stable sort, for any element type. */
module Sequences {

  lemma OccursTwice<T>(s: seq<T>, i: nat, j: nat)
    requires i < j < |s| && s[i] == s[j]
    ensures multiset(s)[s[i]] >= 2
  {
    assert s == s[..j] + s[j..];
    assert s[i] in s[..j] && s[j] in s[j..];
  }

  // ---------------------------------------------------------------------------
  // Sums over sequences
  // ---------------------------------------------------------------------------

  function SumUpTo<T>(s: seq<T>, n: nat, f: T -> int): int
    requires n <= |s|
  {
    if n == 0 then 0 else SumUpTo(s, n - 1, f) + f(s[n - 1])
  }

  function Sum<T>(s: seq<T>, f: T -> int): int { SumUpTo(s, |s|, f) }

  lemma {:induction false} SumAgree<T>(a: seq<T>, b: seq<T>, n: nat, f: T -> int, g: T -> int)
    requires n <= |a| && n <= |b| && forall i | 0 <= i < n :: f(a[i]) == g(b[i])
    ensures SumUpTo(a, n, f) == SumUpTo(b, n, g)
  {
    if n > 0 { SumAgree(a, b, n - 1, f, g); }
  }

  lemma {:induction false} SumConcatUpTo<T>(a: seq<T>, b: seq<T>, n: nat, f: T -> int)
    requires n <= |b|
    ensures SumUpTo(a + b, |a| + n, f) == Sum(a, f) + SumUpTo(b, n, f)
  {
    if n == 0 {
      SumAgree(a + b, a, |a|, f, f);
    } else {
      SumConcatUpTo(a, b, n - 1, f);
      assert (a + b)[|a| + n - 1] == b[n - 1];
    }
  }

  lemma SumConcat<T>(a: seq<T>, b: seq<T>, f: T -> int)
    ensures Sum(a + b, f) == Sum(a, f) + Sum(b, f)
  {
    SumConcatUpTo(a, b, |b|, f);
  }

  /** A sum of differences is the difference of the sums. */
  lemma {:induction false} SumMinus<T>(s: seq<T>, n: nat, f: T -> int, g: T -> int, h: T -> int)
    requires n <= |s| && forall i | 0 <= i < n :: h(s[i]) == f(s[i]) - g(s[i])
    ensures SumUpTo(s, n, h) == SumUpTo(s, n, f) - SumUpTo(s, n, g)
  {
    if n > 0 { SumMinus(s, n - 1, f, g, h); }
  }

  lemma {:induction false} SumMonotone<T>(s: seq<T>, m: nat, n: nat, f: T -> int)
    requires m <= n <= |s| && forall i | m <= i < n :: f(s[i]) >= 0
    ensures SumUpTo(s, m, f) <= SumUpTo(s, n, f)
    decreases n
  {
    if m < n { SumMonotone(s, m, n - 1, f); }
  }

  lemma {:induction false} SumZero<T>(s: seq<T>, n: nat, f: T -> int)
    requires n <= |s| && forall i | 0 <= i < n :: f(s[i]) == 0
    ensures SumUpTo(s, n, f) == 0
  {
    if n > 0 { SumZero(s, n - 1, f); }
  }

  /** Taking one element out of a sequence takes its share out of the sum. */
  lemma SumWithout<T>(s: seq<T>, k: nat, f: T -> int)
    requires k < |s|
    ensures Sum(s, f) == Sum(s[..k] + s[k + 1..], f) + f(s[k])
    ensures multiset(s) == multiset(s[..k] + s[k + 1..]) + multiset{s[k]}
  {
    var front, back := s[..k], s[k + 1..];
    assert s == front + ([s[k]] + back);
    SumConcat(front, [s[k]] + back, f);
    SumConcat([s[k]], back, f);
    SumConcat(front, back, f);
    assert Sum([s[k]], f) == SumUpTo([s[k]], 0, f) + f(s[k]);
  }

  /** A sum does not depend on the order. */
  lemma {:induction false} SumPermuted<T>(a: seq<T>, b: seq<T>, f: T -> int)
    requires multiset(a) == multiset(b)
    ensures Sum(a, f) == Sum(b, f)
    decreases |a|
  {
    if a == [] {
      assert |multiset(b)| == 0;
    } else {
      var n := |a| - 1;
      assert a[n] in multiset(b);
      var k :| 0 <= k < |b| && b[k] == a[n];
      SumWithout(a, n, f);
      SumWithout(b, k, f);
      var x, y := a[..n] + a[n + 1..], b[..k] + b[k + 1..];
      assert multiset(x) == multiset(a) - multiset{a[n]} == multiset(y);
      SumPermuted(x, y, f);
    }
  }

  // ---------------------------------------------------------------------------
  // Sums over finite sets
  // ---------------------------------------------------------------------------

  ghost function SumOver<K(!new)>(s: set<K>, f: K -> int): int {
    if s == {} then 0
    else
      var k :| k in s;
      f(k) + SumOver(s - {k}, f)
  }

  lemma {:induction false} SumOverPick<K(!new)>(s: set<K>, f: K -> int, x: K)
    requires x in s
    ensures SumOver(s, f) == f(x) + SumOver(s - {x}, f)
    decreases |s|
  {
    var k :| k in s && SumOver(s, f) == f(k) + SumOver(s - {k}, f);
    if k != x {
      SumOverPick(s - {k}, f, x);
      SumOverPick(s - {x}, f, k);
      assert s - {k} - {x} == s - {x} - {k};
    }
  }

  lemma {:induction false} SumOverAgree<K(!new)>(s: set<K>, f: K -> int, g: K -> int)
    requires forall k | k in s :: f(k) == g(k)
    ensures SumOver(s, f) == SumOver(s, g)
    decreases |s|
  {
    if s != {} {
      var x :| x in s;
      SumOverPick(s, f, x);
      SumOverPick(s, g, x);
      SumOverAgree(s - {x}, f, g);
    }
  }

  lemma {:induction false} SumOverNonNegative<K(!new)>(s: set<K>, f: K -> int)
    requires forall k | k in s :: f(k) >= 0
    ensures SumOver(s, f) >= 0
    decreases |s|
  {
    if s != {} {
      var x :| x in s;
      SumOverPick(s, f, x);
      SumOverNonNegative(s - {x}, f);
    }
  }

  /** Changing the summand at one key changes the sum by the difference there. */
  lemma SumOverChange<K(!new)>(s: set<K>, f: K -> int, g: K -> int, x: K)
    requires x in s && forall k | k in s && k != x :: f(k) == g(k)
    ensures SumOver(s, g) == SumOver(s, f) - f(x) + g(x)
  {
    SumOverPick(s, f, x);
    SumOverPick(s, g, x);
    SumOverAgree(s - {x}, f, g);
  }

  // ---------------------------------------------------------------------------
  // Sorting
  // ---------------------------------------------------------------------------

  ghost predicate SortedBy<T>(s: seq<T>, key: T -> int) {
    forall i, j | 0 <= i < j < |s| :: key(s[i]) <= key(s[j])
  }

  /** Inserts x after everything whose key is no greater. */
  function Insert<T>(s: seq<T>, x: T, key: T -> int): (r: seq<T>)
    ensures multiset(r) == multiset(s) + multiset{x}
    ensures |r| == |s| + 1
  {
    if s == [] || key(s[|s| - 1]) <= key(x) then s + [x]
    else
      assert s == s[..|s| - 1] + [s[|s| - 1]];
      Insert(s[..|s| - 1], x, key) + [s[|s| - 1]]
  }

  lemma InsertBelow<T>(s: seq<T>, x: T, key: T -> int, bound: int)
    requires key(x) <= bound && forall y | y in s :: key(y) <= bound
    ensures forall i | 0 <= i < |Insert(s, x, key)| :: key(Insert(s, x, key)[i]) <= bound
  {
    var r := Insert(s, x, key);
    forall i | 0 <= i < |r| ensures key(r[i]) <= bound {
      assert r[i] in multiset(r);
      assert r[i] in multiset(s) || r[i] == x;
    }
  }

  lemma {:induction false} InsertSorted<T>(s: seq<T>, x: T, key: T -> int)
    requires SortedBy(s, key)
    ensures SortedBy(Insert(s, x, key), key)
  {
    if s != [] && key(s[|s| - 1]) > key(x) {
      var front, last := s[..|s| - 1], s[|s| - 1];
      InsertSorted(front, x, key);
      InsertBelow(front, x, key, key(last));
    }
  }

  function Sort<T>(s: seq<T>, key: T -> int): (r: seq<T>)
    ensures multiset(r) == multiset(s)
    ensures |r| == |s|
  {
    if s == [] then []
    else
      assert s == s[..|s| - 1] + [s[|s| - 1]];
      Insert(Sort(s[..|s| - 1], key), s[|s| - 1], key)
  }

  lemma {:induction false} SortSorts<T>(s: seq<T>, key: T -> int)
    ensures SortedBy(Sort(s, key), key)
  {
    if s != [] {
      SortSorts(s[..|s| - 1], key);
      InsertSorted(Sort(s[..|s| - 1], key), s[|s| - 1], key);
    }
  }
}
