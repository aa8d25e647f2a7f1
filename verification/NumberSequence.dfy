/**
 * Numbers shaped `<prefix>/<year>/<padded sequence>`: receipts (six digits) and
 * admission numbers (four digits, prefix optional). Both are allocated by reading
 * the numbers on file, taking the highest sequence of the year and adding one.
 */
module NumberSequence {
  import opened Wrappers

  const RECEIPT_WIDTH: nat := 6
  const ADMISSION_WIDTH: nat := 4

  predicate IsDigit(c: char) { '0' <= c <= '9' }

  predicate AllDigits(s: string) { forall i | 0 <= i < |s| :: IsDigit(s[i]) }

  /** What `.` does not match in a JavaScript pattern without the `s` flag. */
  predicate IsLineTerminator(c: char) {
    c == '\n' || c == '\r' || c == '\U{2028}' || c == '\U{2029}'
  }

  predicate OneLine(s: string) { forall i | 0 <= i < |s| :: !IsLineTerminator(s[i]) }

  function DigitChar(d: nat): (c: char)
    requires d < 10
    ensures IsDigit(c) && c as int - '0' as int == d
  {
    '0' + d as char
  }

  /** String(n) */
  function Digits(n: nat): (s: string)
    ensures |s| > 0 && AllDigits(s)
    ensures n < 10 ==> |s| == 1
    ensures n >= 10 ==> |s| == |Digits(n / 10)| + 1
  {
    if n < 10 then [DigitChar(n)] else Digits(n / 10) + [DigitChar(n % 10)]
  }

  /** Number(s), for a run of digits. */
  function ValueOf(s: string): nat
    requires AllDigits(s)
  {
    if s == "" then 0
    else ValueOf(s[..|s| - 1]) * 10 + (s[|s| - 1] as int - '0' as int)
  }

  function Zeros(k: nat): (s: string)
    ensures |s| == k && AllDigits(s)
  {
    seq(k, i => '0')
  }

  /** s.padStart(width, '0') */
  function PadStart(s: string, width: nat): string {
    if |s| < width then Zeros(width - |s|) + s else s
  }

  function FormatNumber(prefix: string, year: nat, sequence: nat, width: nat): string {
    prefix + "/" + Digits(year) + "/" + PadStart(Digits(sequence), width)
  }

  predicate FourDigitYear(year: nat) { 1000 <= year <= 9999 }

  /** A number written out: its own digits, led by noughts up to the width and never cut. */
  ghost predicate Padded(text: string, n: nat, width: nat) {
    exists k: nat ::
      && |text| == k + |Digits(n)| && text[k..] == Digits(n) && (forall i | 0 <= i < k :: text[i] == '0')
      && (k > 0 ==> |text| == width) && |text| >= width
  }

  /** The prefix, the year and the padded sequence, with a slash between. */
  lemma FormatExactly(prefix: string, year: nat, sequence: nat, width: nat)
    ensures exists text ::
      FormatNumber(prefix, year, sequence, width) == prefix + "/" + Digits(year) + "/" + text && Padded(text, sequence, width)
  {
    PadExactly(sequence, width);
  }

  lemma PadExactly(n: nat, width: nat)
    ensures Padded(PadStart(Digits(n), width), n, width)
  {
    var k: nat := if |Digits(n)| < width then width - |Digits(n)| else 0;
    var text := PadStart(Digits(n), width);
    assert |text| == k + |Digits(n)| && text[k..] == Digits(n);
  }

  // ---------------------------------------------------------------------------
  // The pattern, declaratively and as a scan from the end
  // ---------------------------------------------------------------------------

  /** `^(?:.*\/)?(\d{4})\/(\d{width,})$` matches s with these pieces. */
  ghost predicate Matches(s: string, lead: string, yearText: string, sequenceText: string, width: nat) {
    && s == lead + yearText + "/" + sequenceText
    && |yearText| == 4 && AllDigits(yearText)
    && |sequenceText| >= width && AllDigits(sequenceText)
    && (lead == "" || (lead[|lead| - 1] == '/' && OneLine(lead[..|lead| - 1])))
  }

  /** The index of the last '/', or -1. */
  function LastSlash(s: string): (i: int)
    ensures -1 <= i < |s|
    ensures i >= 0 ==> s[i] == '/'
    ensures forall j | i < j < |s| :: s[j] != '/'
  {
    if s == "" then -1
    else if s[|s| - 1] == '/' then |s| - 1
    else LastSlash(s[..|s| - 1])
  }

  function Parse(s: string, width: nat): Option<(nat, nat)> {
    var i := LastSlash(s);
    if i < 4 then None
    else
      var lead, yearText, sequenceText := s[..i - 4], s[i - 4..i], s[i + 1..];
      if && AllDigits(yearText)
         && |sequenceText| >= width && AllDigits(sequenceText)
         && (lead == "" || (lead[|lead| - 1] == '/' && OneLine(lead[..|lead| - 1])))
      then Some((ValueOf(yearText), ValueOf(sequenceText)))
      else None
  }

  lemma {:induction false} LastSlashSplits(a: string, b: string)
    requires AllDigits(b)
    ensures LastSlash(a + "/" + b) == |a|
  {
    var s := a + "/" + b;
    if b != "" {
      assert s[|s| - 1] == b[|b| - 1];
      assert s[..|s| - 1] == a + "/" + b[..|b| - 1];
      LastSlashSplits(a, b[..|b| - 1]);
    }
  }

  /** However the pattern can match, the scan reads the same two numbers. */
  lemma MatchDeterminesParse(s: string, lead: string, yearText: string, sequenceText: string, width: nat)
    requires Matches(s, lead, yearText, sequenceText, width)
    ensures Parse(s, width) == Some((ValueOf(yearText), ValueOf(sequenceText)))
  {
    LastSlashSplits(lead + yearText, sequenceText);
    var i := |lead| + 4;
    assert s[..i - 4] == lead;
    assert s[i - 4..i] == yearText;
    assert s[i + 1..] == sequenceText;
  }

  lemma Reassembles(s: string, i: nat)
    requires 4 <= i < |s| && s[i] == '/'
    ensures s == s[..i - 4] + s[i - 4..i] + "/" + s[i + 1..]
  {
  }

  /** Whatever the scan reads, the pattern matches there. */
  lemma ParseFindsMatch(s: string, width: nat) returns (lead: string, yearText: string, sequenceText: string)
    requires Parse(s, width).Some?
    ensures Matches(s, lead, yearText, sequenceText, width)
    ensures Parse(s, width).value == (ValueOf(yearText), ValueOf(sequenceText))
  {
    var i := LastSlash(s);
    lead, yearText, sequenceText := s[..i - 4], s[i - 4..i], s[i + 1..];
    Reassembles(s, i);
  }

  // ---------------------------------------------------------------------------
  // Printing and reading are inverse
  // ---------------------------------------------------------------------------

  lemma {:induction false} ValueOfDigits(n: nat)
    ensures ValueOf(Digits(n)) == n
  {
    if n >= 10 {
      ValueOfDigits(n / 10);
      assert Digits(n)[..|Digits(n)| - 1] == Digits(n / 10);
    } else {
      var s := Digits(n);
      assert s[..|s| - 1] == "";
    }
  }

  lemma {:induction false} ValueOfZeros(k: nat, s: string)
    requires AllDigits(s)
    ensures AllDigits(Zeros(k) + s) && ValueOf(Zeros(k) + s) == ValueOf(s)
  {
    var t := Zeros(k) + s;
    if s != "" {
      assert t[..|t| - 1] == Zeros(k) + s[..|s| - 1];
      ValueOfZeros(k, s[..|s| - 1]);
    } else if k > 0 {
      assert t[..|t| - 1] == Zeros(k - 1) + s;
      ValueOfZeros(k - 1, s);
    }
  }

  lemma FourDigits(year: nat)
    ensures |Digits(year)| == 4 <==> FourDigitYear(year)
  {
    if year >= 10000 {
      assert year / 10 >= 1000 && year / 10 / 10 >= 100 && year / 10 / 10 / 10 >= 10;
      assert |Digits(year / 10 / 10 / 10)| >= 2;
    }
  }

  /** A printed number reads back as its own year and sequence, whatever the prefix. */
  lemma ParseFormat(prefix: string, year: nat, sequence: nat, width: nat)
    requires OneLine(prefix) && FourDigitYear(year)
    ensures Parse(FormatNumber(prefix, year, sequence, width), width) == Some((year, sequence))
  {
    var text := PadStart(Digits(sequence), width);
    FourDigits(year);
    ValueOfDigits(year);
    ValueOfDigits(sequence);
    if |Digits(sequence)| < width {
      ValueOfZeros(width - |Digits(sequence)|, Digits(sequence));
    }
    var s := FormatNumber(prefix, year, sequence, width);
    assert s == (prefix + "/") + Digits(year) + "/" + text;
    assert (prefix + "/")[..|prefix + "/"| - 1] == prefix;
    MatchDeterminesParse(s, prefix + "/", Digits(year), text, width);
  }

  /** A number printed for a year that is not four digits is never read back at all. */
  lemma OffPatternYear(prefix: string, year: nat, sequence: nat, width: nat)
    requires !FourDigitYear(year)
    ensures Parse(FormatNumber(prefix, year, sequence, width), width) == None
  {
    var s := FormatNumber(prefix, year, sequence, width);
    var i := |prefix| + 1 + |Digits(year)|;
    assert AllDigits(PadStart(Digits(sequence), width));
    LastSlashSplits(prefix + "/" + Digits(year), PadStart(Digits(sequence), width));
    FourDigits(year);
    if i >= 4 {
      if |Digits(year)| < 4 {
        // The slash after the prefix falls among the four characters read as the year.
        assert s[|prefix|] == '/' && !IsDigit('/');
        assert s[i - 4..i][|prefix| - (i - 4)] == '/';
      } else {
        // What precedes those four characters is a digit, where the pattern wants a slash.
        assert s[i - 5] == Digits(year)[|Digits(year)| - 5];
        assert s[..i - 4][|s[..i - 4]| - 1] == s[i - 5];
      }
    }
  }

  // ---------------------------------------------------------------------------
  // Allocation
  // ---------------------------------------------------------------------------

  /** The sequence a number on file contributes to `year`; 0 when it is off-pattern. */
  function SequenceIn(s: string, year: nat, width: nat): nat {
    match Parse(s, width)
    case Some((y, q)) => if y == year then q else 0
    case None => 0
  }

  function Max(a: nat, b: nat): nat { if a >= b then a else b }

  function Highest(existing: seq<string>, year: nat, width: nat): nat {
    if existing == [] then 0
    else Max(Highest(existing[..|existing| - 1], year, width), SequenceIn(existing[|existing| - 1], year, width))
  }

  lemma {:induction false} HighestBounds(existing: seq<string>, year: nat, width: nat, i: nat)
    requires i < |existing|
    ensures SequenceIn(existing[i], year, width) <= Highest(existing, year, width)
  {
    if i < |existing| - 1 { HighestBounds(existing[..|existing| - 1], year, width, i); }
  }

  lemma {:induction false} HighestIsThere(existing: seq<string>, year: nat, width: nat) returns (i: nat)
    requires Highest(existing, year, width) > 0
    ensures i < |existing| && SequenceIn(existing[i], year, width) == Highest(existing, year, width)
  {
    i := |existing| - 1;
    if SequenceIn(existing[i], year, width) != Highest(existing, year, width) {
      i := HighestIsThere(existing[..|existing| - 1], year, width);
    }
  }

  /** The loop of nextReceiptSequence and nextSequence. */
  method NextSequence(existing: seq<string>, year: nat, width: nat) returns (next: nat)
    ensures next == Highest(existing, year, width) + 1
    ensures forall i | 0 <= i < |existing| :: SequenceIn(existing[i], year, width) < next
    ensures next > 1 ==> exists i :: 0 <= i < |existing| && SequenceIn(existing[i], year, width) == next - 1
  {
    var highest: nat := 0;
    for i := 0 to |existing|
      invariant highest == Highest(existing[..i], year, width)
    {
      assert existing[..i + 1][..i] == existing[..i];
      var read := Parse(existing[i], width);
      if read.Some? && read.value.0 == year {
        highest := Max(highest, read.value.1);
      }
    }
    assert existing[..|existing|] == existing;
    next := highest + 1;
    forall i | 0 <= i < |existing| ensures SequenceIn(existing[i], year, width) < next {
      HighestBounds(existing, year, width, i);
    }
    if highest > 0 { ghost var i := HighestIsThere(existing, year, width); }
  }

  lemma FormatSequence(prefix: string, year: nat, sequence: nat, width: nat, other: nat)
    requires OneLine(prefix) && FourDigitYear(year)
    ensures SequenceIn(FormatNumber(prefix, year, sequence, width), other, width) == if other == year then sequence else 0
  {
    ParseFormat(prefix, year, sequence, width);
  }

  lemma HighestAppend(existing: seq<string>, number: string, year: nat, width: nat)
    ensures Highest(existing + [number], year, width) == Max(Highest(existing, year, width), SequenceIn(number, year, width))
  {
    var all := existing + [number];
    assert all[..|all| - 1] == existing;
  }

  /** A number past the highest is none of those on file. */
  lemma PastTheHighest(existing: seq<string>, year: nat, width: nat, number: string)
    requires Highest(existing, year, width) < SequenceIn(number, year, width)
    ensures number !in existing
  {
    if number in existing {
      var i :| 0 <= i < |existing| && existing[i] == number;
      HighestBounds(existing, year, width, i);
    }
  }

  /**
   * The allocated number is new: no number on file that was read can equal it, and
   * the sequence moves up by exactly one when it is added.
   */
  lemma AllocationIsFresh(existing: seq<string>, prefix: string, year: nat, width: nat, number: string)
    requires OneLine(prefix) && FourDigitYear(year)
    requires number == FormatNumber(prefix, year, Highest(existing, year, width) + 1, width)
    ensures number !in existing
    ensures Highest(existing + [number], year, width) == Highest(existing, year, width) + 1
  {
    FormatSequence(prefix, year, Highest(existing, year, width) + 1, width, year);
    HighestAppend(existing, number, year, width);
    PastTheHighest(existing, year, width, number);
  }
}
