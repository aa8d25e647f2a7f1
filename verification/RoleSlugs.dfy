/** The slug of a new role: made from its name, free among the slugs taken, never a system slug. */
module RoleSlugs {
  import opened NumberSequence

  const PROPRIETOR := "PROPRIETOR"
  const PARENT := "PARENT"

  const SYSTEM_SLUGS: set<string> := {PROPRIETOR, "PRINCIPAL", "ADMINISTRATOR", "ACCOUNTANT", "TEACHER", PARENT}

  const SLUG_LENGTH: nat := 40

  predicate SlugChar(c: char) { 'A' <= c <= 'Z' || '0' <= c <= '9' }

  /** Every run of other characters becomes one underscore. */
  function Collapsed(name: string): (s: string)
    ensures forall i | 0 <= i < |s| :: SlugChar(s[i]) || s[i] == '_'
  {
    if name == "" then "" else Followed(Collapsed(name[..|name| - 1]), name[|name| - 1])
  }

  /** An underscore is not repeated. */
  function Followed(s: string, c: char): string {
    if SlugChar(c) then s + [c]
    else if s != "" && s[|s| - 1] == '_' then s
    else s + "_"
  }

  function WithoutLeading(s: string): (r: string)
    ensures r != "" ==> r[0] != '_'
    ensures forall c | c in r :: c in s
  {
    if s != "" && s[0] == '_' then WithoutLeading(s[1..]) else s
  }

  function WithoutTrailing(s: string): (r: string)
    ensures r <= s && (r != "" ==> r[|r| - 1] != '_')
  {
    if s != "" && s[|s| - 1] == '_' then WithoutTrailing(s[..|s| - 1]) else s
  }

  function Cut(s: string): string { if |s| <= SLUG_LENGTH then s else s[..SLUG_LENGTH] }

  /** From the name in upper case. */
  function Base(upper: string): string {
    var s := Cut(WithoutTrailing(WithoutLeading(Collapsed(upper))));
    if s == "" then "ROLE" else s
  }

  // ---------------------------------------------------------------------------
  // The base is the words of the name
  // ---------------------------------------------------------------------------

  /** The maximal runs of capitals and digits, in order. */
  function Words(name: string): seq<string> {
    if name == "" then []
    else
      var init, c := name[..|name| - 1], name[|name| - 1];
      var words := Words(init);
      if !SlugChar(c) then words
      else if init != "" && SlugChar(init[|init| - 1]) && words != [] then
        words[..|words| - 1] + [words[|words| - 1] + [c]]
      else words + [[c]]
  }

  function Joined(words: seq<string>): string {
    if words == [] then ""
    else if |words| == 1 then words[0]
    else Joined(words[..|words| - 1]) + "_" + words[|words| - 1]
  }

  predicate IsWord(w: string) { w != "" && forall i | 0 <= i < |w| :: SlugChar(w[i]) }

  predicate LedBy(name: string) { name != "" && !SlugChar(name[0]) }

  predicate EndsInGap(name: string) { name != "" && !SlugChar(name[|name| - 1]) }

  lemma {:induction false} WordsAre(name: string)
    ensures forall k | 0 <= k < |Words(name)| :: IsWord(Words(name)[k])
    ensures name != "" && SlugChar(name[|name| - 1]) ==> Words(name) != []
    ensures Words(name) == [] ==> forall i | 0 <= i < |name| :: !SlugChar(name[i])
  {
    if name != "" { WordsAre(name[..|name| - 1]); }
  }

  lemma JoinedNext(words: seq<string>, w: string)
    ensures Joined(words + [w]) == if words == [] then w else Joined(words) + "_" + w
  {
    assert (words + [w])[..|words|] == words;
  }

  lemma JoinedGrows(words: seq<string>, c: char)
    requires words != []
    ensures Joined(words[..|words| - 1] + [words[|words| - 1] + [c]]) == Joined(words) + [c]
  {
    hide Joined;
    var init, last := words[..|words| - 1], words[|words| - 1];
    assert words == init + [last];
    JoinedNext(init, last);
    JoinedNext(init, last + [c]);
    Regroup(Joined(init) + "_", last, [c]);
  }

  lemma Regroup(a: string, b: string, c: string)
    ensures a + (b + c) == (a + b) + c
  {
  }

  /** An underscore where a gap is. */
  function Gap(there: bool): string { if there then "_" else "" }

  /** What the gaps leave around the words. */
  function Around(name: string): string {
    if Words(name) == [] then Gap(name != "")
    else Gap(LedBy(name)) + Joined(Words(name)) + Gap(EndsInGap(name))
  }

  lemma NoGap(s: string)
    ensures s + Gap(false) == s && "" + s == s
  {
  }

  /** One more character of the name. */
  lemma AroundNext(init: string, c: char)
    ensures var name := init + [c];
      Around(name) == if SlugChar(c) then Around(init) + [c] else if EndsInGap(init) then Around(init) else Around(init) + "_"
  {
    hide Around, Words;
    if Words(init) == [] {
      AroundFirst(init, c);
    } else if SlugChar(c) {
      AroundLetter(init, c);
    } else {
      AroundGap(init, c);
    }
  }

  lemma AroundFirst(init: string, c: char)
    requires Words(init) == []
    ensures var name := init + [c];
      Around(name) == if SlugChar(c) then Around(init) + [c] else if EndsInGap(init) then Around(init) else Around(init) + "_"
  {
    hide Joined, Words;
    WordsAre(init);
    WordsNext(init, c);
    JoinedNext([], [c]);
    NoGap(Gap(init != "") + [c]);
    assert [[c]] == [] + [[c]];
    assert SlugChar(c) ==> LedBy(init + [c]) == (init != "");
  }

  lemma AroundLetter(init: string, c: char)
    requires Words(init) != [] && SlugChar(c)
    ensures Around(init + [c]) == Around(init) + [c]
  {
    hide Joined, Words;
    WordsNext(init, c);
    NoWords();
    var led, s := Gap(LedBy(init)), Joined(Words(init));
    NoGap(led + Joined(Words(init + [c])));
    NoGap(led + s);
    assert LedBy(init + [c]) == LedBy(init);
    if EndsInGap(init) {
      JoinedNext(Words(init), [c]);
      Regroup(led, s + "_", [c]);
      Regroup(led, s, "_");
    } else {
      JoinedGrows(Words(init), c);
      Regroup(led, s, [c]);
    }
  }

  lemma AroundGap(init: string, c: char)
    requires Words(init) != [] && !SlugChar(c)
    ensures Around(init + [c]) == if EndsInGap(init) then Around(init) else Around(init) + "_"
  {
    hide Joined, Words;
    WordsNext(init, c);
    NoWords();
    NoGap(Gap(LedBy(init)) + Joined(Words(init)));
    assert LedBy(init + [c]) == LedBy(init);
  }

  lemma NoWords()
    ensures Words("") == []
  {
  }

  lemma WordsNext(init: string, c: char)
    ensures var words := Words(init);
      Words(init + [c]) ==
        if !SlugChar(c) then words
        else if !EndsInGap(init) && words != [] then words[..|words| - 1] + [words[|words| - 1] + [c]]
        else words + [[c]]
  {
    assert (init + [c])[..|init|] == init;
    if init == "" { assert Words(init) == []; }
  }

  lemma GapBefore(init: string)
    requires Words(init) == []
    ensures LedBy(init) == (init != "")
  {
    WordsAre(init);
  }

  lemma FollowedEnds(s: string, c: char)
    ensures Followed(s, c) != "" && (Followed(s, c)[|Followed(s, c)| - 1] == '_' <==> !SlugChar(c))
  {
  }

  lemma CollapsedNext(init: string, c: char)
    ensures Collapsed(init + [c]) == Followed(Collapsed(init), c)
  {
    hide Followed;
    assert (init + [c])[..|init|] == init;
  }

  lemma {:induction false} CollapsedIs(name: string)
    ensures Collapsed(name) == Around(name)
    ensures Around(name) != "" ==> (Around(name)[|Around(name)| - 1] == '_' <==> EndsInGap(name))
    ensures Around(name) == "" <==> name == ""
  {
    hide Around, Words, Joined, Collapsed;
    if name == "" {
      EmptyAround();
    } else {
      var init, c := name[..|name| - 1], name[|name| - 1];
      CollapsedIs(init);
      CollapsedNext(init, c);
      AroundNext(init, c);
      FollowedEnds(Around(init), c);
      assert Around(init + [c]) == Followed(Around(init), c);
      assert name == init + [c];
    }
  }

  lemma EmptyAround()
    ensures Around("") == "" == Collapsed("")
  {
  }

  lemma {:induction false} JoinedIsSlug(words: seq<string>)
    requires forall k | 0 <= k < |words| :: IsWord(words[k])
    ensures words != [] ==>
      Joined(words) != "" && SlugChar(Joined(words)[0]) && SlugChar(Joined(words)[|Joined(words)| - 1])
  {
    if |words| > 1 { JoinedIsSlug(words[..|words| - 1]); }
  }

  lemma LeadGoes(s: string, led: bool)
    requires s != "" && s[0] != '_'
    ensures WithoutLeading(Gap(led) + s) == s
  {
    assert WithoutLeading(s) == s;
    if led { assert (Gap(led) + s)[1..] == s; } else { assert Gap(led) + s == s; }
  }

  lemma TailGoes(s: string, ended: bool)
    requires s != "" && s[|s| - 1] != '_'
    ensures WithoutTrailing(s + Gap(ended)) == s
  {
    assert WithoutTrailing(s) == s;
    if ended { assert (s + Gap(ended))[..|s|] == s; } else { assert s + Gap(ended) == s; }
  }

  lemma OnlyGap(there: bool)
    ensures WithoutTrailing(WithoutLeading(Gap(there))) == ""
  {
    if there { assert Gap(there)[1..] == ""; }
  }

  /** The base is the words of the name joined by underscores, cut at forty, or ROLE for a name without any. */
  lemma BaseIsTheWords(upper: string)
    ensures Base(upper) == if Words(upper) == [] then "ROLE"
                           else if |Joined(Words(upper))| <= 40 then Joined(Words(upper)) else Joined(Words(upper))[..40]
  {
    hide Words, Joined, Collapsed, WithoutLeading, WithoutTrailing;
    CollapsedIs(upper);
    WordsAre(upper);
    JoinedIsSlug(Words(upper));
    if Words(upper) != [] {
      var s := Joined(Words(upper));
      Regroup(Gap(LedBy(upper)), s, Gap(EndsInGap(upper)));
      assert (s + Gap(EndsInGap(upper)))[0] == s[0];
      LeadGoes(s + Gap(EndsInGap(upper)), LedBy(upper));
      TailGoes(s, EndsInGap(upper));
    } else {
      OnlyGap(upper != "");
    }
  }

  /** A base is a non-empty word of at most forty capitals, digits and inner underscores. */
  lemma BaseIsASlug(upper: string)
    ensures 0 < |Base(upper)| <= SLUG_LENGTH && Base(upper)[0] != '_'
    ensures forall i | 0 <= i < |Base(upper)| :: SlugChar(Base(upper)[i]) || Base(upper)[i] == '_'
  {
    var collapsed := Collapsed(upper);
    var led := WithoutLeading(collapsed);
    var trimmed := WithoutTrailing(led);
    forall i | 0 <= i < |trimmed| ensures SlugChar(trimmed[i]) || trimmed[i] == '_' {
      assert trimmed[i] == led[i] && led[i] in led;
      var j :| 0 <= j < |collapsed| && collapsed[j] == led[i];
    }
    if trimmed != "" { assert trimmed[0] == led[0]; }
  }

  /** The k-th slug tried: the base itself, or its CUSTOM form when the base is reserved, then _2, _3, ... */
  function Candidate(base: string, k: nat): string {
    if k == 0 then if base in SYSTEM_SLUGS then base + "_CUSTOM" else base
    else base + "_" + Digits(k + 1)
  }

  lemma NoSystemSlugIsNumbered(slug: string, n: nat)
    requires slug in SYSTEM_SLUGS
    ensures forall base: string :: slug != base + "_" + Digits(n) && slug != base + "_CUSTOM"
  {
    forall base: string ensures slug != base + "_" + Digits(n) && slug != base + "_CUSTOM" {
      var numbered := base + "_" + Digits(n);
      assert numbered[|base|] == '_' == (base + "_CUSTOM")[|base|];
      assert '_' !in slug;
    }
  }

  lemma CandidateIsNotReserved(base: string, k: nat)
    ensures Candidate(base, k) !in SYSTEM_SLUGS
  {
    if Candidate(base, k) in SYSTEM_SLUGS { NoSystemSlugIsNumbered(Candidate(base, k), k + 1); }
  }

  lemma SameDigits(m: nat, n: nat)
    requires Digits(m) == Digits(n)
    ensures m == n
  {
    ValueOfDigits(m);
    ValueOfDigits(n);
  }

  /** No two candidates of one base are equal: the suffixes differ, and no word is a number. */
  lemma CandidatesDiffer(base: string, j: nat, k: nat)
    requires j < k
    ensures Candidate(base, j) != Candidate(base, k)
  {
    var later := base + "_" + Digits(k + 1);
    assert later[|base| + 1..] == Digits(k + 1);
    if j > 0 {
      var earlier := base + "_" + Digits(j + 1);
      assert earlier[|base| + 1..] == Digits(j + 1);
      if earlier == later { SameDigits(j + 1, k + 1); }
    } else if base in SYSTEM_SLUGS {
      var custom := base + "_CUSTOM";
      assert custom[|base| + 1] == 'C' && later[|base| + 1] == Digits(k + 1)[0];
      assert IsDigit(Digits(k + 1)[0]);
    }
  }

  // ---------------------------------------------------------------------------
  // The search
  // ---------------------------------------------------------------------------

  predicate IsTried(base: string, k: nat, s: string) { exists j | 0 <= j < k :: Candidate(base, j) == s }

  /** The candidates before the k-th. */
  function Tried(base: string, k: nat): set<string> {
    if k == 0 then {} else Tried(base, k - 1) + {Candidate(base, k - 1)}
  }

  lemma {:induction false} TriedAre(base: string, k: nat, s: string)
    ensures s in Tried(base, k) <==> IsTried(base, k, s)
  {
    if k > 0 {
      TriedAre(base, k - 1, s);
      if IsTried(base, k - 1, s) {
        var j :| 0 <= j < k - 1 && Candidate(base, j) == s;
        assert j < k && Candidate(base, j) == s;
      }
      if Candidate(base, k - 1) == s { assert IsTried(base, k, s); }
    }
  }

  lemma CandidateIsNew(base: string, k: nat)
    ensures Candidate(base, k) !in Tried(base, k)
  {
    TriedAre(base, k, Candidate(base, k));
    if IsTried(base, k, Candidate(base, k)) {
      var j :| 0 <= j < k && Candidate(base, j) == Candidate(base, k);
      CandidatesDiffer(base, j, k);
    }
  }

  lemma {:induction false} TriedCount(base: string, k: nat)
    ensures |Tried(base, k)| == k
  {
    if k > 0 {
      TriedCount(base, k - 1);
      CandidateIsNew(base, k - 1);
    }
  }

  lemma Fits(a: set<string>, b: set<string>)
    requires a <= b
    ensures |a| <= |b|
  {
    assert b == a + (b - a);
  }

  /** Every candidate before the k-th is taken. */
  ghost predicate AllTaken(base: string, taken: set<string>, k: nat) { Tried(base, k) <= taken }

  ghost predicate FirstAt(base: string, taken: set<string>, k: nat) {
    AllTaken(base, taken, k) && Candidate(base, k) !in taken
  }

  /** Pigeonhole: no more candidates can be taken than there are slugs. */
  lemma TriesAreBounded(base: string, taken: set<string>, k: nat)
    requires AllTaken(base, taken, k)
    ensures k <= |taken|
  {
    TriedCount(base, k);
    Fits(Tried(base, k), taken);
  }

  lemma EarlierIsTried(base: string, j: nat, k: nat)
    requires j < k
    ensures Candidate(base, j) in Tried(base, k)
  {
    TriedAre(base, k, Candidate(base, j));
    assert IsTried(base, k, Candidate(base, j));
  }

  lemma FirstIsUnique(base: string, taken: set<string>, j: nat, k: nat)
    requires FirstAt(base, taken, j) && FirstAt(base, taken, k)
    ensures j == k
  {
    if j < k { EarlierIsTried(base, j, k); }
    if k < j { EarlierIsTried(base, k, j); }
  }

  lemma {:induction false} FirstExists(base: string, taken: set<string>, k: nat) returns (first: nat)
    requires AllTaken(base, taken, k)
    ensures FirstAt(base, taken, first)
    decreases |taken| - k
  {
    TriesAreBounded(base, taken, k);
    if Candidate(base, k) !in taken {
      first := k;
    } else {
      assert AllTaken(base, taken, k + 1);
      TriesAreBounded(base, taken, k + 1);
      first := FirstExists(base, taken, k + 1);
    }
  }

  lemma SomeFirst(base: string, taken: set<string>)
    ensures exists k: nat :: FirstAt(base, taken, k)
  {
    var first := FirstExists(base, taken, 0);
  }

  /** The first candidate nobody has. */
  ghost function FirstFree(base: string, taken: set<string>): (slug: string)
    ensures slug !in taken && slug !in SYSTEM_SLUGS
  {
    SomeFirst(base, taken);
    var k: nat :| FirstAt(base, taken, k);
    CandidateIsNotReserved(base, k);
    Candidate(base, k)
  }

  /** slug is the base with the least number from 2 up whose slug nobody has. */
  ghost predicate Numbered(base: string, taken: set<string>, slug: string, n: nat) {
    && n >= 2 && slug == base + "_" + Digits(n) && slug !in taken
    && forall m: nat | 2 <= m < n :: base + "_" + Digits(m) in taken
  }

  /** The base itself when nobody has it, marked as custom when it is a system slug, and numbered otherwise. */
  lemma SlugExactly(base: string, taken: set<string>)
    ensures var plain := if base in SYSTEM_SLUGS then base + "_CUSTOM" else base;
      if plain !in taken then FirstFree(base, taken) == plain
      else exists n: nat :: Numbered(base, taken, FirstFree(base, taken), n)
  {
    hide Tried;
    SomeFirst(base, taken);
    var k: nat :| FirstAt(base, taken, k) && FirstFree(base, taken) == Candidate(base, k);
    if Candidate(base, 0) !in taken {
      NothingTried(base);
      FirstIsUnique(base, taken, 0, k);
    } else {
      forall m: nat | 2 <= m < k + 1 ensures base + "_" + Digits(m) in taken { EarlierIsTried(base, m - 1, k); }
      assert Numbered(base, taken, FirstFree(base, taken), k + 1);
    }
  }

  lemma NothingTried(base: string)
    ensures Tried(base, 0) == {}
  {
  }

  /**
   * The loop that asks the database for each candidate in turn. It ends because only so
   * many slugs are taken, and yields the first free candidate.
   */
  method UniqueSlug(base: string, taken: set<string>) returns (slug: string)
    ensures slug == FirstFree(base, taken)
    ensures slug !in taken && slug !in SYSTEM_SLUGS
  {
    slug := if base in SYSTEM_SLUGS then base + "_CUSTOM" else base;
    var suffix := 2;
    ghost var tries: nat := 0;
    while slug in taken
      invariant suffix == tries + 2 && slug == Candidate(base, tries)
      invariant AllTaken(base, taken, tries)
      decreases |taken| - tries
    {
      TriesAreBounded(base, taken, tries + 1);
      slug := base + "_" + Digits(suffix);
      suffix, tries := suffix + 1, tries + 1;
    }
    SomeFirst(base, taken);
    ghost var k: nat :| FirstAt(base, taken, k) && FirstFree(base, taken) == Candidate(base, k);
    FirstIsUnique(base, taken, tries, k);
  }
}
