/** The heading pattern of `pages_to_sections` (main.py:60-62), matched with `re.match`
    against a stripped line:

      ^(Chapter\s+\d+[:.\-\s].+|Section\s+\d+[:.\-\s].+|\d+\.\s+.+|[A-Z][A-Z0-9 \-:&]{6,})$

    `\d` is restricted to ASCII digits. Lines come out of `splitlines`, so they hold no
    newline, and `.` then matches any character. */
module Heading {
  import opened Strings

  /** The character class `[:.\-\s]`. */
  predicate IsNumberSep(c: char) {
    c == ':' || c == '.' || c == '-' || IsSpace(c)
  }

  /** The character class `[A-Z0-9 \-:&]`. */
  predicate IsCapsChar(c: char) {
    IsAsciiUpper(c) || IsAsciiDigit(c) || c == ' ' || c == '-' || c == ':' || c == '&'
  }

  /** Every character of `s[i..j]` is whitespace. */
  predicate SpaceRun(s: string, i: nat, j: nat)
    requires i <= j <= |s|
  {
    forall m :: i <= m < j ==> IsSpace(s[m])
  }

  /** Every character of `s[i..j]` is an ASCII digit. */
  predicate DigitRun(s: string, i: nat, j: nat)
    requires i <= j <= |s|
  {
    forall m :: i <= m < j ==> IsAsciiDigit(s[m])
  }

  /** The end of the longest whitespace run of `s` starting at `i`. */
  function SkipSpace(s: string, i: nat): (j: nat)
    requires i <= |s|
    ensures i <= j <= |s| && SpaceRun(s, i, j) && (j == |s| || !IsSpace(s[j]))
    decreases |s| - i
  {
    if i < |s| && IsSpace(s[i]) then SkipSpace(s, i + 1) else i
  }

  /** The end of the longest digit run of `s` starting at `i`. */
  function SkipDigits(s: string, i: nat): (j: nat)
    requires i <= |s|
    ensures i <= j <= |s| && DigitRun(s, i, j) && (j == |s| || !IsAsciiDigit(s[j]))
    decreases |s| - i
  {
    if i < |s| && IsAsciiDigit(s[i]) then SkipDigits(s, i + 1) else i
  }

  /** `Chapter\s+\d+[:.\-\s].+` (or with `Section`) from offset `7`, decided left to right:
      the whitespace run and the digit run are taken whole, since neither class contains
      the character that has to follow it. */
  predicate NumberedTail(ln: string)
    requires |ln| >= 7
  {
    var i := SkipSpace(ln, 7);
    var j := SkipDigits(ln, i);
    7 < i < j < |ln| - 1 && IsNumberSep(ln[j])
  }

  /** `\d+\.\s+.+` decided the same way. */
  predicate DottedNumber(ln: string) {
    var j := SkipDigits(ln, 0);
    0 < j && j + 2 < |ln| && ln[j] == '.' && IsSpace(ln[j + 1])
  }

  /** `[A-Z][A-Z0-9 \-:&]{6,}` over the whole line. */
  predicate CapsLine(ln: string) {
    |ln| >= 7 && IsAsciiUpper(ln[0]) && forall i :: 1 <= i < |ln| ==> IsCapsChar(ln[i])
  }

  /** `heading_re.match(ln)` succeeds on a line without a newline. */
  predicate IsHeading(ln: string) {
    ((StartsWith(ln, "Chapter") || StartsWith(ln, "Section")) && NumberedTail(ln))
    || DottedNumber(ln)
    || CapsLine(ln)
  }

  /** `\s+\d+[:.\-\s].+` from offset `7` as the regex reads: SOME split into a non-empty
      whitespace run, a non-empty digit run, one separator and a non-empty rest. */
  ghost predicate NumberedTailSpec(ln: string)
    requires |ln| >= 7
  {
    exists i: nat, j: nat :: 7 < i < j < |ln| - 1 && SpaceRun(ln, 7, i) && DigitRun(ln, i, j) && IsNumberSep(ln[j])
  }

  /** `ln[j..k]` is a dot followed by a non-empty whitespace run. */
  predicate DotSpaces(ln: string, j: nat, k: nat)
    requires j < k <= |ln|
  {
    ln[j] == '.' && SpaceRun(ln, j + 1, k)
  }

  /** `\d+\.\s+.+` as the regex reads. */
  ghost predicate DottedNumberSpec(ln: string) {
    exists j: nat, k: nat :: 0 < j && j + 1 < k < |ln| && DigitRun(ln, 0, j) && DotSpaces(ln, j, k)
  }

  /** A whitespace run followed by something else is the longest one. */
  lemma {:induction false} SkipSpaceAt(s: string, i: nat, j: nat)
    requires i <= j <= |s| && SpaceRun(s, i, j) && (j == |s| || !IsSpace(s[j]))
    ensures SkipSpace(s, i) == j
    decreases j - i
  {
    if i < j { SkipSpaceAt(s, i + 1, j); }
  }

  /** A digit run followed by something else is the longest one. */
  lemma {:induction false} SkipDigitsAt(s: string, i: nat, j: nat)
    requires i <= j <= |s| && DigitRun(s, i, j) && (j == |s| || !IsAsciiDigit(s[j]))
    ensures SkipDigits(s, i) == j
    decreases j - i
  {
    if i < j { SkipDigitsAt(s, i + 1, j); }
  }

  /** The left-to-right decision is exactly the regex's existential reading. */
  lemma NumberedTailIsRegex(ln: string)
    requires |ln| >= 7
    ensures NumberedTail(ln) <==> NumberedTailSpec(ln)
  {
    if NumberedTailSpec(ln) {
      var i: nat, j: nat :| 7 < i < j < |ln| - 1 && SpaceRun(ln, 7, i) && DigitRun(ln, i, j) && IsNumberSep(ln[j]);
      DigitIsNotSpace(ln[i]);
      SkipSpaceAt(ln, 7, i);
      DigitIsNotSpace(ln[j]);
      SkipDigitsAt(ln, i, j);
    }
  }

  lemma DottedNumberIsRegex(ln: string)
    ensures DottedNumber(ln) <==> DottedNumberSpec(ln)
  {
    var j := SkipDigits(ln, 0);
    if DottedNumber(ln) {
      assert DotSpaces(ln, j, j + 2);
    }
    if DottedNumberSpec(ln) {
      var j': nat, k': nat :| 0 < j' && j' + 1 < k' < |ln| && DigitRun(ln, 0, j') && DotSpaces(ln, j', k');
      SkipDigitsAt(ln, 0, j');
      assert IsSpace(ln[j' + 1]);
    }
  }
}
