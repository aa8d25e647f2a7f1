/**
 * Amounts in words on a receipt, and a reader that recovers the amount from the words.
 */
module AmountInWords {

  const ONES: seq<string> := [
    "zero", "one", "two", "three", "four", "five", "six", "seven", "eight", "nine", "ten", "eleven",
    "twelve", "thirteen", "fourteen", "fifteen", "sixteen", "seventeen", "eighteen", "nineteen"]

  const TENS: seq<string> := [
    "", "", "twenty", "thirty", "forty", "fifty", "sixty", "seventy", "eighty", "ninety"]

  const SCALES: seq<string> := ["", "thousand", "million", "billion", "trillion"]

  // ---------------------------------------------------------------------------
  // The printer
  // ---------------------------------------------------------------------------

  function BelowHundred(n: nat): string
    requires n < 100
  {
    if n < 20 then ONES[n]
    else if n % 10 == 0 then TENS[n / 10]
    else TENS[n / 10] + "-" + ONES[n % 10]
  }

  function BelowThousand(n: nat): string
    requires n < 1000
  {
    var hundreds, rest := n / 100, n % 100;
    if hundreds == 0 then BelowHundred(rest)
    else
      var head := ONES[hundreds] + " hundred";
      if rest == 0 then head else head + " and " + BelowHundred(rest)
  }

  /** SCALES[i], which is undefined, and so prints nothing, past trillions. */
  function ScaleName(i: nat): string { if i < |SCALES| then SCALES[i] else "" }

  /** One non-zero group of three digits at scale i; `started` when larger groups came before. */
  function PartText(group: nat, i: nat, started: bool): string
    requires group < 1000
  {
    (if i == 0 && started && group < 100 then "and " else "")
    + BelowThousand(group)
    + (if ScaleName(i) != "" then " " + ScaleName(i) else "")
  }

  /** parts.join(' ') */
  function Join(parts: seq<string>): string {
    if parts == [] then ""
    else if |parts| == 1 then parts[0]
    else Join(parts[..|parts| - 1]) + " " + parts[|parts| - 1]
  }

  /** The parts printed for n thousands-groups counted from scale i upwards. */
  function Parts(n: nat, i: nat): seq<string> {
    if n == 0 then []
    else
      var above := Parts(n / 1000, i + 1);
      if n % 1000 == 0 then above else above + [PartText(n % 1000, i, above != [])]
  }

  function Words(n: nat): string { if n == 0 then "zero" else Join(Parts(n, 0)) }

  /** The number whose groups, lowest first, start at position i. */
  function GroupValue(groups: seq<nat>, i: nat): nat
    requires i <= |groups|
    decreases |groups| - i
  {
    if i == |groups| then 0 else GroupValue(groups, i + 1) * 1000 + groups[i]
  }

  lemma {:induction false} GroupValueAppend(groups: seq<nat>, g: nat, i: nat, unit: nat)
    requires i <= |groups| && unit == Thousands(|groups| - i)
    ensures GroupValue(groups + [g], i) == GroupValue(groups, i) + g * unit
    decreases |groups| - i
  {
    if i < |groups| {
      GroupValueAppend(groups, g, i + 1, Thousands(|groups| - i - 1));
      assert (groups + [g])[i] == groups[i];
      assert unit == 1000 * Thousands(|groups| - i - 1);
    }
  }

  function Thousands(k: nat): nat { if k == 0 then 1 else 1000 * Thousands(k - 1) }

  /** integerToWords: split into groups, then name them from the largest down. */
  method IntegerToWords(value: nat) returns (text: string)
    ensures text == Words(value)
  {
    if value == 0 { return "zero"; }

    var groups: seq<nat> := [];
    var remaining := value;
    ghost var unit := 1;
    while remaining > 0
      invariant unit == Thousands(|groups|)
      invariant GroupValue(groups, 0) + remaining * unit == value
      invariant forall k | 0 <= k < |groups| :: groups[k] < 1000
    {
      GroupValueAppend(groups, remaining % 1000, 0, unit);
      Regroup(remaining, unit);
      groups := groups + [remaining % 1000];
      remaining := remaining / 1000;
      unit := 1000 * unit;
    }

    var parts: seq<string> := [];
    assert GroupValue(groups, 0) == value;
    var i: nat := |groups|;
    while i > 0
      invariant i <= |groups|
      invariant parts == Parts(GroupValue(groups, i), i)
    {
      i := i - 1;
      var group := groups[i];
      assert GroupValue(groups, i) / 1000 == GroupValue(groups, i + 1) && GroupValue(groups, i) % 1000 == group;
      if group != 0 {
        var words := BelowThousand(group);
        var joiner := if i == 0 && parts != [] && group < 100 then "and " else "";
        parts := parts + [joiner + words + (if ScaleName(i) != "" then " " + ScaleName(i) else "")];
      }
    }
    text := Join(parts);
  }

  lemma Regroup(remaining: nat, unit: nat)
    ensures remaining * unit == (remaining % 1000) * unit + (remaining / 1000) * (1000 * unit)
  {
    assert remaining == (remaining / 1000) * 1000 + remaining % 1000;
    assert (remaining / 1000) * (1000 * unit) == ((remaining / 1000) * 1000) * unit;
  }

  function Capital(c: char): char { if 'a' <= c <= 'z' then c - 32 as char else c }

  function Uncapital(c: char): char { if 'A' <= c <= 'Z' then c + 32 as char else c }

  /** The lower-case sentence for an amount in kobo. */
  function Sentence(amount: nat): string {
    Words(amount / 100) + " naira"
    + (if amount % 100 > 0 then ", " + Words(amount % 100) + " kobo" else "")
    + " only"
  }

  /** amountInWords, for an amount already exact to the kobo. */
  function AmountText(amount: nat): string {
    var sentence := Sentence(amount);
    [Capital(sentence[0])] + sentence[1..]
  }

  // ---------------------------------------------------------------------------
  // How the words go together
  // ---------------------------------------------------------------------------

  /** The parts of what is left below larger groups. */
  function Tail(r: nat, i: nat): seq<string> {
    if r == 0 then []
    else
      var above := Tail(r / 1000, i + 1);
      if r % 1000 == 0 then above else above + [PartText(r % 1000, i, true)]
  }

  lemma Lowered(h: nat, r: nat, k: nat)
    requires k > 0 && r < Thousands(k)
    ensures var n := h * Thousands(k) + r;
      n / 1000 == h * Thousands(k - 1) + r / 1000 && n % 1000 == r % 1000 && r / 1000 < Thousands(k - 1)
  {
    var q := h * Thousands(k - 1) + r / 1000;
    assert h * Thousands(k) == 1000 * (h * Thousands(k - 1));
    assert h * Thousands(k) + r == 1000 * q + r % 1000;
  }

  lemma PartsNext(n: nat, i: nat)
    requires n > 0
    ensures var above := Parts(n / 1000, i + 1);
      Parts(n, i) == above + if n % 1000 == 0 then [] else [PartText(n % 1000, i, above != [])]
  {
    hide PartText;
  }

  lemma TailNext(r: nat, i: nat)
    ensures Tail(r, i) == Tail(r / 1000, i + 1) + if r % 1000 == 0 then [] else [PartText(r % 1000, i, true)]
  {
    hide PartText;
    if r == 0 { assert Tail(0, i) == [] && Tail(0, i + 1) == []; }
  }

  lemma {:induction false} PartsSplit(h: nat, r: nat, k: nat, i: nat)
    requires h > 0 && r < Thousands(k)
    ensures Parts(h * Thousands(k) + r, i) == Parts(h, i + k) + Tail(r, i) && Parts(h, i + k) != []
  {
    hide PartText, Parts, Tail;
    NoPartsMeansZero(h, i + k);
    TailNext(r, i);
    if k == 0 {
      TailOfNothing(i);
      assert h * Thousands(0) + r == h;
    } else {
      Lowered(h, r, k);
      PartsSplit(h, r / 1000, k - 1, i + 1);
      var n := h * Thousands(k) + r;
      HeadCounts(h, k);
      PartsNext(n, i);
    }
  }

  lemma TailOfNothing(i: nat)
    ensures Tail(0, i) == []
  {
  }

  lemma HeadCounts(h: nat, k: nat)
    requires h > 0
    ensures h * Thousands(k) > 0
  {
    ThousandsPositive(k);
    TimesPositive(h, Thousands(k));
  }

  lemma TimesPositive(a: nat, b: nat)
    requires a > 0 && b > 0
    ensures a * b > 0
  {
  }

  lemma {:induction false} ThousandsPositive(k: nat)
    ensures Thousands(k) > 0
  {
    if k > 0 { ThousandsPositive(k - 1); }
  }

  /** Above the units nothing depends on what came before. */
  lemma {:induction false} TailAbove(r: nat, i: nat)
    requires i > 0
    ensures Tail(r, i) == Parts(r, i)
  {
    if r > 0 { TailAbove(r / 1000, i + 1); }
  }

  lemma {:induction false} JoinConcat(a: seq<string>, b: seq<string>)
    requires a != [] && b != []
    ensures Join(a + b) == Join(a) + " " + Join(b)
  {
    var front, last := b[..|b| - 1], b[|b| - 1];
    assert (a + b)[..|a + b| - 1] == a + front && (a + b)[|a + b| - 1] == last;
    if front == [] {
      assert a + front == a && b == [last];
    } else {
      JoinConcat(a, front);
      Reassociate(Join(a), " " + Join(front), " " + last);
      Reassociate(" ", Join(front), " " + last);
    }
  }

  lemma Reassociate(a: string, b: string, c: string)
    ensures (a + b) + c == a + (b + c)
  {
  }

  lemma HighTail(r: nat)
    requires r >= 1000
    ensures Tail(r, 0) == Parts(r, 0) != []
  {
    hide PartText;
    TailAbove(r / 1000, 1);
    NoPartsMeansZero(r / 1000, 1);
  }

  lemma LowParts(r: nat)
    requires 0 < r < 1000
    ensures Tail(r, 0) == [PartText(r, 0, true)] && Parts(r, 0) == [PartText(r, 0, false)]
  {
    hide PartText;
    assert Parts(0, 1) == [] && Tail(0, 1) == [];
    assert Tail(r, 0) == [] + [PartText(r, 0, true)] == [PartText(r, 0, true)];
    assert Parts(r, 0) == [] + [PartText(r, 0, false)] == [PartText(r, 0, false)];
  }

  /** The last group is led by "and" when it is below a hundred. */
  lemma TailWords(r: nat)
    requires r > 0
    ensures Tail(r, 0) != [] && Join(Tail(r, 0)) == (if r < 100 then "and " else "") + Words(r)
  {
    hide Tail, Parts, PartText, BelowThousand, Words;
    if r >= 1000 {
      HighTail(r);
      WordsJoin(r);
      Unscaled(Words(r));
    } else {
      LowParts(r);
      OnePart(r);
      GroupWords(r);
      OneJoined(PartText(r, 0, true));
    }
  }

  lemma WordsJoin(r: nat)
    requires r > 0
    ensures Words(r) == Join(Parts(r, 0))
  {
    hide Parts, Join;
  }

  lemma OnePart(r: nat)
    requires 0 < r < 1000
    ensures PartText(r, 0, true) == (if r < 100 then "and " else "") + BelowThousand(r)
    ensures PartText(r, 0, false) == BelowThousand(r)
  {
    hide BelowThousand;
    Unscaled("and " + BelowThousand(r));
    Unscaled("" + BelowThousand(r));
  }

  lemma Unscaled(s: string)
    ensures s + "" == s && "" + s == s
  {
  }

  /** The words of a group of three digits. */
  lemma GroupWords(n: nat)
    requires 0 < n < 1000
    ensures Words(n) == BelowThousand(n)
  {
    hide Words, Parts, PartText, BelowThousand;
    OnePart(n);
    LowParts(n);
    WordsJoin(n);
    OneJoined(BelowThousand(n));
  }

  lemma HundredsText(n: nat)
    requires 100 <= n < 1000
    ensures BelowThousand(n) == ONES[n / 100] + " hundred" + if n % 100 == 0 then "" else " and " + BelowThousand(n % 100)
  {
    hide BelowHundred;
    if n % 100 == 0 {
      Unscaled(ONES[n / 100] + " hundred");
    } else {
      Reassociate(ONES[n / 100] + " hundred", " and ", BelowHundred(n % 100));
    }
  }

  lemma SmallText(n: nat)
    requires n < 100
    ensures BelowThousand(n) == BelowHundred(n)
  {
    hide BelowHundred;
  }

  lemma TensText(n: nat)
    requires 20 < n < 100 && n % 10 != 0
    ensures BelowThousand(n) == BelowThousand(n - n % 10) + "-" + BelowThousand(n % 10)
  {
    hide BelowThousand;
    SmallText(n);
    SmallText(n - n % 10);
    SmallText(n % 10);
    assert BelowHundred(n - n % 10) == TENS[n / 10];
  }

  lemma HundredsWords(n: nat)
    requires 100 <= n < 1000
    ensures Words(n) == Words(n / 100) + " hundred" + if n % 100 == 0 then "" else " and " + Words(n % 100)
  {
    hide Words, BelowThousand;
    GroupWords(n);
    GroupWords(n / 100);
    HundredsText(n);
    DigitText(n / 100);
    if n % 100 != 0 { GroupWords(n % 100); }
  }

  lemma DigitText(d: nat)
    requires 0 < d < 10
    ensures BelowThousand(d) == ONES[d]
  {
  }

  /** Tens and units are hyphenated; hundreds are followed by "and" when there is more. */
  lemma WordsBelowThousand(n: nat)
    requires 20 < n < 1000
    ensures n < 100 && n % 10 != 0 ==> Words(n) == Words(n - n % 10) + "-" + Words(n % 10)
    ensures n >= 100 ==> Words(n) == Words(n / 100) + " hundred" + if n % 100 == 0 then "" else " and " + Words(n % 100)
  {
    hide Words, BelowThousand;
    if n >= 100 {
      HundredsWords(n);
    } else if n % 10 != 0 {
      TensText(n);
      GroupWords(n);
      GroupWords(n - n % 10);
      GroupWords(n % 10);
    }
  }

  lemma Led(head: string, w: string, small: bool)
    ensures head + " " + ((if small then "and " else "") + w) == head + ((if small then " and " else " ") + w)
  {
    var joiner := if small then "and " else "";
    Reassociate(head, " ", joiner + w);
    Reassociate(" ", joiner, w);
  }

  /** The highest group goes first with its scale, and a remainder below a hundred is led by "and". */
  lemma WordsByScale(h: nat, k: nat, r: nat)
    requires 0 < h < 1000 && 0 < k < |SCALES| && r < Thousands(k)
    ensures Words(h * Thousands(k) + r)
            == Words(h) + " " + SCALES[k] + if r == 0 then "" else (if r < 100 then " and " else " ") + Words(r)
  {
    hide Words, PartText, Parts, Tail;
    var head := Words(h) + " " + SCALES[k];
    PartsSplit(h, r, k, 0);
    HeadPart(h, k);
    HeadCounts(h, k);
    WordsJoin(h * Thousands(k) + r);
    OneJoined(head);
    if r > 0 {
      TailWords(r);
      JoinConcat([head], Tail(r, 0));
      Led(head, Words(r), r < 100);
    } else {
      TailOfNothing(0);
      assert [head] + [] == [head];
      Unscaled(head);
    }
  }

  lemma OneJoined(part: string)
    ensures Join([part]) == part
  {
  }

  lemma HeadPart(h: nat, k: nat)
    requires 0 < h < 1000 && 0 < k < |SCALES|
    ensures Parts(h, k) == [Words(h) + " " + SCALES[k]]
  {
    hide Parts, Words, BelowThousand, PartText;
    GroupWords(h);
    PartsNext(h, k);
    NoPartsMeansZero(0, k + 1);
    ScaledPart(h, k);
  }

  lemma ScaledPart(h: nat, k: nat)
    requires 0 < h < 1000 && 0 < k < |SCALES|
    ensures PartText(h, k, false) == BelowThousand(h) + " " + SCALES[k]
  {
    hide BelowThousand;
    assert SCALES[k] != "";
    Unscaled(BelowThousand(h));
    Reassociate(BelowThousand(h), " ", SCALES[k]);
  }

  /** The sentence begins with a capital and is otherwise the naira, then the kobo if there are any. */
  lemma AmountReads(amount: nat)
    ensures AmountText(amount) != "" && 'A' <= AmountText(amount)[0] <= 'Z'
    ensures [Uncapital(AmountText(amount)[0])] + AmountText(amount)[1..]
            == (if amount % 100 == 0 then Words(amount / 100) + " naira only"
                else Words(amount / 100) + " naira, " + Words(amount % 100) + " kobo only")
  {
    hide Words, Sentence;
    SentenceStartsLower(amount);
    CapitalUndone(Sentence(amount));
    SentenceIs(amount);
  }

  lemma SentenceIs(amount: nat)
    ensures Sentence(amount)
            == (if amount % 100 == 0 then Words(amount / 100) + " naira only"
                else Words(amount / 100) + " naira, " + Words(amount % 100) + " kobo only")
  {
    hide Words;
    var naira, kobo := Words(amount / 100), Words(amount % 100);
    if amount % 100 == 0 {
      Unscaled(naira + " naira");
      Reassociate(naira, " naira", " only");
    } else {
      Reassociate(", ", kobo, " kobo");
      Reassociate(naira + " naira", ", ", kobo + " kobo");
      Reassociate(naira, " naira", ", ");
      Reassociate(naira + " naira, ", kobo + " kobo", " only");
      Reassociate(kobo, " kobo", " only");
      Reassociate(naira + " naira, ", kobo, " kobo only");
    }
  }

  // ---------------------------------------------------------------------------
  // The reader
  // ---------------------------------------------------------------------------

  predicate IsSeparator(c: char) { c == ' ' || c == '-' || c == ',' }

  /** The first n characters, split at every separator; neighbouring separators leave empty words. */
  function LexUpTo(s: string, n: nat): (ws: seq<string>)
    requires n <= |s|
    ensures |ws| > 0
  {
    if n == 0 then [""] else Extend(LexUpTo(s, n - 1), s[n - 1])
  }

  /** The words after one more character. */
  function Extend(ws: seq<string>, c: char): (r: seq<string>)
    requires |ws| > 0
    ensures |r| > 0
  {
    if IsSeparator(c) then ws + [""] else ws[..|ws| - 1] + [ws[|ws| - 1] + [c]]
  }

  function Lex(s: string): (ws: seq<string>) { LexUpTo(s, |s|) }

  /** The naira already closed, the scaled groups so far, and the group being read. */
  datatype Reading = Reading(naira: nat, total: nat, group: nat)

  function UnitValue(w: string): nat {
    if w == "one" then 1 else if w == "two" then 2 else if w == "three" then 3 else if w == "four" then 4
    else if w == "five" then 5 else if w == "six" then 6 else if w == "seven" then 7 else if w == "eight" then 8
    else if w == "nine" then 9 else if w == "ten" then 10 else if w == "eleven" then 11 else if w == "twelve" then 12
    else if w == "thirteen" then 13 else if w == "fourteen" then 14 else if w == "fifteen" then 15
    else if w == "sixteen" then 16 else if w == "seventeen" then 17 else if w == "eighteen" then 18
    else if w == "nineteen" then 19 else if w == "twenty" then 20 else if w == "thirty" then 30
    else if w == "forty" then 40 else if w == "fifty" then 50 else if w == "sixty" then 60
    else if w == "seventy" then 70 else if w == "eighty" then 80 else if w == "ninety" then 90
    else 0
  }

  function ScaleValue(w: string): nat {
    if w == "thousand" then 1_000
    else if w == "million" then 1_000_000
    else if w == "billion" then 1_000_000_000
    else if w == "trillion" then 1_000_000_000_000
    else 0
  }

  /** Units add, "hundred" multiplies, a scale closes its group; anything else is ignored. */
  function ReadWord(r: Reading, w: string): Reading {
    if w == "hundred" then r.(group := r.group * 100)
    else if w == "naira" then Reading(r.total + r.group, 0, 0)
    else if ScaleValue(w) > 0 then r.(total := r.total + r.group * ScaleValue(w), group := 0)
    else r.(group := r.group + UnitValue(w))
  }

  function ReadWords(ws: seq<string>, r: Reading): Reading {
    if ws == [] then r else ReadWords(ws[1..], ReadWord(r, ws[0]))
  }

  function Read(s: string, r: Reading): Reading { ReadWords(Lex(s), r) }

  function ReadNumber(s: string): nat {
    var r := Read(s, Reading(0, 0, 0));
    r.total + r.group
  }

  /** The kobo a sentence states. */
  function ReadAmount(s: string): nat
    requires s != ""
  {
    var r := Read([Uncapital(s[0])] + s[1..], Reading(0, 0, 0));
    r.naira * 100 + r.total + r.group
  }

  // ---------------------------------------------------------------------------
  // Reading piece by piece
  // ---------------------------------------------------------------------------

  lemma {:induction false} LexAgree(s: string, t: string, n: nat)
    requires n <= |s| && n <= |t| && s[..n] == t[..n]
    ensures LexUpTo(s, n) == LexUpTo(t, n)
  {
    if n > 0 {
      assert s[..n - 1] == s[..n][..n - 1] && t[..n - 1] == t[..n][..n - 1];
      assert s[n - 1] == s[..n][n - 1] && t[n - 1] == t[..n][n - 1];
      LexAgree(s, t, n - 1);
    }
  }

  lemma ExtendBehind(before: seq<string>, ws: seq<string>, c: char)
    requires |ws| > 0
    ensures Extend(before + ws, c) == before + Extend(ws, c)
  {
    if !IsSeparator(c) {
      assert (before + ws)[..|before + ws| - 1] == before + ws[..|ws| - 1];
    }
  }

  /** s is a, a separator, and b. */
  predicate Splits(s: string, a: string, c: char, b: string) {
    |s| == |a| + 1 + |b| && s[..|a|] == a && s[|a|] == c && forall i | 0 <= i < |b| :: s[|a| + 1 + i] == b[i]
  }

  lemma LexSplitsFront(s: string, a: string, c: char, b: string)
    requires IsSeparator(c) && Splits(s, a, c, b)
    ensures LexUpTo(s, |a| + 1) == Lex(a) + LexUpTo(b, 0)
  {
    assert s[..|a|] == a[..|a|];
    LexAgree(s, a, |a|);
  }

  lemma {:induction false} LexSplitsUpTo(s: string, a: string, c: char, b: string, n: nat)
    requires IsSeparator(c) && n <= |b| && Splits(s, a, c, b)
    ensures LexUpTo(s, |a| + 1 + n) == Lex(a) + LexUpTo(b, n)
  {
    hide Lex, Extend, IsSeparator;
    if n == 0 {
      LexSplitsFront(s, a, c, b);
    } else {
      LexSplitsUpTo(s, a, c, b, n - 1);
      assert s[|a| + n] == b[n - 1];
      ExtendBehind(Lex(a), LexUpTo(b, n - 1), b[n - 1]);
    }
  }

  lemma LexSplits(a: string, c: char, b: string)
    requires IsSeparator(c)
    ensures Lex(a + [c] + b) == Lex(a) + Lex(b)
  {
    LexSplitsUpTo(a + [c] + b, a, c, b, |b|);
  }

  lemma {:induction false} ReadWordsConcat(a: seq<string>, b: seq<string>, r: Reading)
    ensures ReadWords(a + b, r) == ReadWords(b, ReadWords(a, r))
  {
    if a == [] {
      assert a + b == b;
    } else {
      assert (a + b)[1..] == a[1..] + b;
      ReadWordsConcat(a[1..], b, ReadWord(r, a[0]));
    }
  }

  lemma ReadSplits(a: string, c: char, b: string, r: Reading)
    requires IsSeparator(c)
    ensures Read(a + [c] + b, r) == Read(b, Read(a, r))
  {
    LexSplits(a, c, b);
    ReadWordsConcat(Lex(a), Lex(b), r);
  }

  predicate Plain(w: string) { forall i | 0 <= i < |w| :: !IsSeparator(w[i]) }

  lemma {:induction false} LexPlain(w: string, n: nat)
    requires Plain(w) && n <= |w|
    ensures LexUpTo(w, n) == [w[..n]]
  {
    if n > 0 {
      LexPlain(w, n - 1);
      assert w[..n - 1] + [w[n - 1]] == w[..n];
    }
  }

  lemma ReadPlain(w: string, r: Reading)
    requires Plain(w)
    ensures Read(w, r) == ReadWord(r, w)
  {
    LexPlain(w, |w|);
    assert w[..|w|] == w;
    assert ReadWords([w], r) == ReadWords([], ReadWord(r, w));
  }

  // ---------------------------------------------------------------------------
  // Reading what the printer writes
  // ---------------------------------------------------------------------------

  predicate AddsTo(w: string, v: nat) {
    Plain(w) && UnitValue(w) == v && ScaleValue(w) == 0 && w != "hundred" && w != "naira"
  }

  lemma SmallUnits(n: nat)
    requires n < 10
    ensures AddsTo(ONES[n], n)
  {
  }

  lemma TeenUnits(n: nat)
    requires 10 <= n < 20
    ensures AddsTo(ONES[n], n)
  {
  }

  lemma TensUnits(n: nat)
    requires 2 <= n < 10
    ensures AddsTo(TENS[n], 10 * n)
  {
  }

  lemma ScaleWords(i: nat)
    requires 1 <= i < 5
    ensures Plain(SCALES[i]) && ScaleValue(SCALES[i]) == Thousands(i) && SCALES[i] != "hundred" && SCALES[i] != "naira"
  {
    assert Thousands(0) == 1 && Thousands(1) == 1000 && Thousands(2) == 1000000;
  }

  lemma ClosingWords()
    ensures Plain("hundred") && Plain("naira")
  {
  }

  lemma AndAddsNothing()
    ensures AddsTo("and", 0)
  {
  }

  lemma EmptyAddsNothing()
    ensures AddsTo("", 0)
  {
  }

  lemma KoboAddsNothing()
    ensures AddsTo("kobo", 0)
  {
  }

  lemma OnlyAddsNothing()
    ensures AddsTo("only", 0)
  {
  }

  lemma ReadAdds(w: string, v: nat, r: Reading)
    requires AddsTo(w, v)
    ensures Read(w, r) == r.(group := r.group + v)
  {
    ReadPlain(w, r);
  }

  lemma ReadOnes(n: nat, r: Reading)
    requires n < 20
    ensures Read(ONES[n], r) == r.(group := r.group + n)
  {
    if n < 10 { SmallUnits(n); } else { TeenUnits(n); }
    ReadAdds(ONES[n], n, r);
  }

  lemma ReadBelowHundred(n: nat, r: Reading)
    requires n < 100
    ensures Read(BelowHundred(n), r) == r.(group := r.group + n)
  {
    hide Read, AddsTo;
    if n < 20 {
      ReadOnes(n, r);
    } else {
      TensUnits(n / 10);
      ReadAdds(TENS[n / 10], 10 * (n / 10), r);
      if n % 10 != 0 {
        ReadSplits(TENS[n / 10], '-', ONES[n % 10], r);
        ReadOnes(n % 10, r.(group := r.group + 10 * (n / 10)));
      }
    }
  }

  /** A group of three digits read on top of whatever group was already open. */
  function Blend(open: nat, group: nat): nat {
    if group < 100 then open + group else (open + group / 100) * 100 + group % 100
  }

  lemma ReadHundreds(h: nat, r: Reading)
    requires 1 <= h < 10
    ensures Read(ONES[h] + " hundred", r) == r.(group := (r.group + h) * 100)
  {
    assert ONES[h] + " hundred" == ONES[h] + [' '] + "hundred";
    ReadSplits(ONES[h], ' ', "hundred", r);
    ReadOnes(h, r);
    ClosingWords();
    ReadPlain("hundred", r.(group := r.group + h));
  }

  lemma ReadBelowThousand(n: nat, r: Reading)
    requires n < 1000
    ensures Read(BelowThousand(n), r) == r.(group := Blend(r.group, n))
  {
    var h, rest := n / 100, n % 100;
    if h == 0 {
      ReadBelowHundred(rest, r);
    } else {
      var head := ONES[h] + " hundred";
      ReadHundreds(h, r);
      if rest != 0 {
        var r' := r.(group := (r.group + h) * 100);
        assert head + " and " + BelowHundred(rest) == head + [' '] + ("and" + [' '] + BelowHundred(rest));
        ReadSplits(head, ' ', "and" + [' '] + BelowHundred(rest), r);
        ReadAnd(BelowHundred(rest), r');
        ReadBelowHundred(rest, r');
      }
    }
  }

  lemma ReadAnd(s: string, r: Reading)
    ensures Read("and" + [' '] + s, r) == Read(s, r)
  {
    ReadSplits("and", ' ', s, r);
    AndAddsNothing();
    ReadAdds("and", 0, r);
  }

  /** A printed group closes into the total when its scale has a name, and stays open otherwise. */
  function AfterGroup(r: Reading, group: nat, i: nat): Reading {
    if 1 <= i < 5 then r.(total := r.total + Blend(r.group, group) * Thousands(i), group := 0)
    else r.(group := Blend(r.group, group))
  }

  lemma ReadPart(group: nat, i: nat, started: bool, r: Reading)
    requires group < 1000
    ensures Read(PartText(group, i, started), r) == AfterGroup(r, group, i)
  {
    hide BelowThousand, Read;
    var words := BelowThousand(group);
    ReadBelowThousand(group, r);
    if ScaleName(i) != "" {
      assert PartText(group, i, started) == words + [' '] + SCALES[i];
      ReadSplits(words, ' ', SCALES[i], r);
      ScaleWords(i);
      ReadPlain(SCALES[i], r.(group := Blend(r.group, group)));
    } else if i == 0 && started && group < 100 {
      assert PartText(group, i, started) == "and" + [' '] + words;
      ReadAnd(words, r);
    } else {
      assert PartText(group, i, started) == words;
    }
  }

  /** Reading the parts one after another. */
  function AfterGroups(r: Reading, n: nat, i: nat): Reading {
    if n == 0 then r
    else if n % 1000 == 0 then AfterGroups(r, n / 1000, i + 1)
    else AfterGroup(AfterGroups(r, n / 1000, i + 1), n % 1000, i)
  }

  lemma {:induction false} ReadParts(n: nat, i: nat, r: Reading)
    ensures Read(Join(Parts(n, i)), r) == AfterGroups(r, n, i)
    decreases n
  {
    if n == 0 {
      EmptyAddsNothing();
      ReadAdds("", 0, r);
    } else {
      ReadParts(n / 1000, i + 1, r);
      var above := Parts(n / 1000, i + 1);
      if n % 1000 != 0 {
        var part := PartText(n % 1000, i, above != []);
        ReadPart(n % 1000, i, above != [], AfterGroups(r, n / 1000, i + 1));
        if above == [] {
          NoPartsMeansZero(n / 1000, i + 1);
          assert Join([part]) == part;
        } else {
          assert (above + [part])[..|above + [part]| - 1] == above;
          assert Join(above) + " " + part == Join(above) + [' '] + part;
          ReadSplits(Join(above), ' ', part, r);
        }
      }
    }
  }

  lemma {:induction false} NoPartsMeansZero(n: nat, i: nat)
    ensures Parts(n, i) == [] <==> n == 0
    decreases n
  {
    if n > 0 { NoPartsMeansZero(n / 1000, i + 1); }
  }

  // ---------------------------------------------------------------------------
  // How much is recovered
  // ---------------------------------------------------------------------------

  const TRILLION_GROUPS: nat := 1_000_000_000_000_000

  /** Past trillions nothing scales the groups, so reading them cannot overshoot. */
  lemma {:induction false} UnnamedGroups(n: nat, i: nat, r: Reading)
    requires i >= 5 && r.group == 0
    ensures var r' := AfterGroups(r, n, i);
            r'.naira == r.naira && r'.total == r.total && r'.group <= n
    decreases n
  {
    if n > 0 { UnnamedGroups(n / 1000, i + 1, r); }
  }

  /** Exact below the last named scale, short above it. */
  ghost predicate Recovers(r: Reading, r': Reading, n: nat, i: nat)
    requires i < 5
  {
    && r'.naira == r.naira
    && if n < Thousands(5 - i)
       then r'.total == n * Thousands(i) && r'.group == 0
       else r'.total + r'.group * Thousands(i) < n * Thousands(i)
  }

  lemma ThousandsTable()
    ensures Thousands(0) == 1 && Thousands(1) == 1_000 && Thousands(2) == 1_000_000
    ensures Thousands(3) == 1_000_000_000 && Thousands(4) == 1_000_000_000_000
    ensures Thousands(5) == TRILLION_GROUPS
  {
  }

  lemma TrillionsRecovered(n: nat, r: Reading)
    requires r.total == 0 && r.group == 0
    ensures Recovers(r, AfterGroups(r, n, 4), n, 4)
  {
    ThousandsTable();
    if n > 0 { UnnamedGroups(n / 1000, 5, r); }
  }

  lemma BillionsRecovered(n: nat, r: Reading)
    requires r.total == 0 && r.group == 0
    ensures Recovers(r, AfterGroups(r, n, 3), n, 3)
  {
    ThousandsTable();
    if n > 0 { TrillionsRecovered(n / 1000, r); }
  }

  lemma MillionsRecovered(n: nat, r: Reading)
    requires r.total == 0 && r.group == 0
    ensures Recovers(r, AfterGroups(r, n, 2), n, 2)
  {
    ThousandsTable();
    if n > 0 { BillionsRecovered(n / 1000, r); }
  }

  lemma ThousandsRecovered(n: nat, r: Reading)
    requires r.total == 0 && r.group == 0
    ensures Recovers(r, AfterGroups(r, n, 1), n, 1)
  {
    ThousandsTable();
    if n > 0 { MillionsRecovered(n / 1000, r); }
  }

  lemma WordsRead(n: nat, naira: nat)
    ensures var r := Read(Words(n), Reading(naira, 0, 0));
            r.naira == naira && (if n < TRILLION_GROUPS then r.total + r.group == n else r.total + r.group < n)
  {
    var start := Reading(naira, 0, 0);
    if n == 0 {
      ReadOnes(0, start);
    } else {
      ThousandsTable();
      ReadParts(n, 0, start);
      ThousandsRecovered(n / 1000, start);
    }
  }

  /** The words read back to the number exactly when it is below a thousand trillion. */
  lemma WordsReadBackIff(n: nat)
    ensures ReadNumber(Words(n)) == n <==> n < TRILLION_GROUPS
  {
    WordsRead(n, 0);
  }

  /** The first number past the named scales prints like the number one. */
  lemma FirstCollision()
    ensures Words(TRILLION_GROUPS) == Words(1)
  {
    assert Parts(1, 5) == [PartText(1, 5, false)];
    assert Parts(1000, 4) == Parts(1, 5);
    assert Parts(1_000_000, 3) == Parts(1000, 4);
    assert Parts(1_000_000_000, 2) == Parts(1_000_000, 3);
    assert Parts(1_000_000_000_000, 1) == Parts(1_000_000_000, 2);
    assert Parts(TRILLION_GROUPS, 0) == Parts(1_000_000_000_000, 1);
    assert Parts(1, 0) == [PartText(1, 0, false)];
  }

  /** Groups past the named scales print alike, whichever place they hold. */
  lemma {:induction false} UnnamedAlike(n: nat, i: nat, j: nat)
    requires i >= 5 && j >= 5
    ensures Parts(n, i) == Parts(n, j)
    decreases n
  {
    if n > 0 { UnnamedAlike(n / 1000, i + 1, j + 1); }
  }

  lemma SameLowest(a: nat, b: nat, i: nat)
    requires a > 0 && b > 0 && a % 1000 == b % 1000 && Parts(a / 1000, i + 1) == Parts(b / 1000, i + 1)
    ensures Parts(a, i) == Parts(b, i)
  {
    hide PartText;
  }

  lemma LowestGroup(q: nat, unit: nat, r: nat)
    requires q > 0 && unit > 0
    ensures q * (1000 * unit) + r > 0
    ensures (q * (1000 * unit) + r) / 1000 == q * unit + r / 1000 && (q * (1000 * unit) + r) % 1000 == r % 1000
  {
    assert q * (1000 * unit) == 1000 * (q * unit);
  }

  /** Three more zeros between the named groups and the rest leave the parts as they were. */
  lemma {:induction false} ShiftedParts(q: nat, r: nat, i: nat)
    requires q > 0 && i <= 5 && r < Thousands(5 - i)
    ensures Parts(q * (1000 * Thousands(5 - i)) + r, i) == Parts(q * Thousands(5 - i) + r, i)
    decreases 5 - i
  {
    hide Parts;
    if i == 5 {
      ShiftedUnnamed(q);
    } else {
      var unit := Thousands(4 - i);
      ShiftedParts(q, r / 1000, i + 1);
      LowestGroup(q, unit, r);
      LowestGroup(q, 1000 * unit, r);
      SameLowest(q * (1000 * (1000 * unit)) + r, q * (1000 * unit) + r, i);
    }
  }

  lemma NoLowestGroup(q: nat, i: nat)
    requires q > 0
    ensures Parts(1000 * q, i) == Parts(q, i + 1)
  {
    hide PartText;
    assert 1000 * q / 1000 == q && 1000 * q % 1000 == 0;
  }

  lemma ShiftedUnnamed(q: nat)
    requires q > 0
    ensures Parts(1000 * q, 5) == Parts(q, 5)
  {
    hide Parts;
    NoLowestGroup(q, 5);
    UnnamedAlike(q, 5, 6);
  }

  /** Another number with the same words: the groups past the trillions moved up by one. */
  function Shifted(n: nat): nat { n / TRILLION_GROUPS * (1000 * TRILLION_GROUPS) + n % TRILLION_GROUPS }

  /** From the bound on, every number shares its words with another. */
  lemma EveryLaterCollides(n: nat)
    requires n >= TRILLION_GROUPS
    ensures Shifted(n) != n && Words(Shifted(n)) == Words(n)
  {
    hide Parts, Join, Thousands;
    ThousandsTable();
    var q, r := n / TRILLION_GROUPS, n % TRILLION_GROUPS;
    ShiftedParts(q, r, 0);
    assert n == q * TRILLION_GROUPS + r && q >= 1;
  }

  /** Words tell the numbers below a bound apart exactly when the bound is at most a thousand trillion. */
  lemma WordsApartIff(bound: nat)
    ensures (forall a, b | 0 <= a < bound && 0 <= b < bound && Words(a) == Words(b) :: a == b)
            <==> bound <= TRILLION_GROUPS
  {
    hide Words;
    if bound <= TRILLION_GROUPS {
      forall a: nat, b: nat | a < bound && b < bound && Words(a) == Words(b) ensures a == b {
        WordsReadBackIff(a);
        WordsReadBackIff(b);
      }
    } else {
      FirstCollision();
      assert 1 < bound && TRILLION_GROUPS < bound;
    }
  }

  // ---------------------------------------------------------------------------
  // Whole sentences
  // ---------------------------------------------------------------------------

  predicate LowerStart(s: string) { s != "" && 'a' <= s[0] <= 'z' }

  lemma GroupStartsLower(n: nat)
    requires n < 1000
    ensures LowerStart(BelowThousand(n))
  {
    var k := if n / 100 > 0 then n / 100 else if n < 20 then n else n / 10;
    assert LowerStart(ONES[n / 100]);
    if n < 20 { assert LowerStart(ONES[n]); } else if n < 100 { assert LowerStart(TENS[n / 10]); }
  }

  lemma PartStartsLower(group: nat, i: nat, started: bool)
    requires group < 1000
    ensures LowerStart(PartText(group, i, started))
  {
    GroupStartsLower(group);
    assert PartText(group, i, started)[0] == if i == 0 && started && group < 100 then 'a' else BelowThousand(group)[0];
  }

  lemma {:induction false} JoinStartsLower(parts: seq<string>)
    requires parts != [] && LowerStart(parts[0])
    ensures LowerStart(Join(parts))
  {
    if |parts| > 1 { JoinStartsLower(parts[..|parts| - 1]); }
  }

  lemma {:induction false} PartsStartLower(n: nat, i: nat)
    requires n > 0
    ensures Parts(n, i) != [] && LowerStart(Parts(n, i)[0])
    decreases n
  {
    hide PartText, LowerStart;
    if n / 1000 > 0 { PartsStartLower(n / 1000, i + 1); }
    NoPartsMeansZero(n / 1000, i + 1);
    if n % 1000 != 0 { PartStartsLower(n % 1000, i, Parts(n / 1000, i + 1) != []); }
  }

  lemma SentenceStartsLower(amount: nat)
    ensures LowerStart(Sentence(amount))
  {
    if amount / 100 > 0 {
      PartsStartLower(amount / 100, 0);
      JoinStartsLower(Parts(amount / 100, 0));
    }
  }

  lemma ReadTail(s: string, w: string, r: Reading)
    requires AddsTo(w, 0)
    ensures Read(s + [' '] + w, r) == Read(s, r)
  {
    ReadSplits(s, ' ', w, r);
    ReadAdds(w, 0, Read(s, r));
  }

  /** A clause of the sentence: a space, some words, and `kobo`. */
  function KoboTail(words: string): string { "" + [' '] + words + [' '] + "kobo" }

  lemma ReadKoboTail(words: string, r: Reading)
    ensures Read(KoboTail(words), r) == Read(words, r)
  {
    KoboAddsNothing();
    EmptyAddsNothing();
    ReadTail("" + [' '] + words, "kobo", r);
    ReadSplits("", ' ', words, r);
    ReadAdds("", 0, r);
  }

  lemma ReadKobo(kobo: nat, r: Reading)
    requires kobo < 100 && r.total == 0 && r.group == 0
    ensures var after := Read(KoboTail(Words(kobo)), r);
            after.naira == r.naira && after.total + after.group == kobo
  {
    ReadKoboTail(Words(kobo), r);
    WordsRead(kobo, r.naira);
  }

  /** What the naira part of a sentence reads as; short of the truth past the named scales. */
  ghost predicate NairaRead(r: Reading, naira: nat) {
    r.total == 0 && r.group == 0 && if naira < TRILLION_GROUPS then r.naira == naira else r.naira < naira
  }

  function NairaHead(naira: nat): string { Words(naira) + [' '] + "naira" }

  lemma ReadNaira(naira: nat)
    ensures NairaRead(Read(NairaHead(naira), Reading(0, 0, 0)), naira)
  {
    var start := Reading(0, 0, 0);
    WordsRead(naira, 0);
    ReadSplits(Words(naira), ' ', "naira", start);
    ClosingWords();
    ReadPlain("naira", Read(Words(naira), start));
  }

  lemma ReadPastKobo(head: string, kobo: nat)
    requires 0 < kobo < 100
    requires var r := Read(head, Reading(0, 0, 0)); r.total == 0 && r.group == 0
    ensures var after := Read((head + [','] + KoboTail(Words(kobo))) + [' '] + "only", Reading(0, 0, 0));
      after.naira == Read(head, Reading(0, 0, 0)).naira && after.total + after.group == kobo
  {
    var start := Reading(0, 0, 0);
    var tail := KoboTail(Words(kobo));
    OnlyAddsNothing();
    ReadTail(head + [','] + tail, "only", start);
    ReadSplits(head, ',', tail, start);
    ReadKobo(kobo, Read(head, start));
  }

  lemma SentenceWithoutKobo(amount: nat)
    requires amount % 100 == 0
    ensures Sentence(amount) == NairaHead(amount / 100) + [' '] + "only"
  {
    hide Words;
  }

  lemma SentenceRead(amount: nat)
    ensures var r := Read(Sentence(amount), Reading(0, 0, 0));
            r.total + r.group == amount % 100 && NairaRead(Reading(r.naira, 0, 0), amount / 100)
  {
    hide Sentence, Read, KoboTail;
    ReadNaira(amount / 100);
    if amount % 100 > 0 {
      SentenceWithKobo(amount);
      ReadPastKobo(NairaHead(amount / 100), amount % 100);
    } else {
      SentenceWithoutKobo(amount);
      OnlyAddsNothing();
      ReadTail(NairaHead(amount / 100), "only", Reading(0, 0, 0));
    }
  }

  lemma KoboClause(k: string)
    ensures ", " + k + " kobo" == [','] + KoboTail(k)
  {
  }

  lemma TwoClauses(n: string, clause: string, tail: string)
    requires clause == [','] + tail
    ensures n + " naira" + clause + " only" == (n + [' '] + "naira" + [','] + tail) + [' '] + "only"
  {
    assert n + " naira" == n + [' '] + "naira";
    assert " only" == [' '] + "only";
  }

  lemma SentenceWithKobo(amount: nat)
    requires amount % 100 > 0
    ensures Sentence(amount)
            == (NairaHead(amount / 100) + [','] + KoboTail(Words(amount % 100))) + [' '] + "only"
  {
    var k := Words(amount % 100);
    KoboClause(k);
    TwoClauses(Words(amount / 100), ", " + k + " kobo", KoboTail(k));
  }

  lemma CapitalUndone(s: string)
    requires LowerStart(s)
    ensures var t := [Capital(s[0])] + s[1..]; [Uncapital(t[0])] + t[1..] == s
  {
    var t := [Capital(s[0])] + s[1..];
    assert t[1..] == s[1..];
  }

  /** The sentence on a receipt states its exact amount, if and only if the naira are in range. */
  lemma AmountReadsBackIff(amount: nat)
    ensures AmountText(amount) != ""
    ensures ReadAmount(AmountText(amount)) == amount <==> amount / 100 < TRILLION_GROUPS
  {
    SentenceStartsLower(amount);
    CapitalUndone(Sentence(amount));
    SentenceRead(amount);
  }

  /** No two amounts in range share their words. */
  lemma WordsDetermineAmount(a: nat, b: nat)
    requires a / 100 < TRILLION_GROUPS && b / 100 < TRILLION_GROUPS && AmountText(a) == AmountText(b)
    ensures a == b
  {
    AmountReadsBackIff(a);
    AmountReadsBackIff(b);
  }
}
