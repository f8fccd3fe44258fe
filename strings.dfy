/** Character classes and the Python string primitives the pipeline relies on:
    `str.isspace`, `str.strip`, `sep.join`, slicing and decimal formatting. */
module Strings {

  /** Python's `str.isspace` (the characters `strip()` removes and the regex class `\s`
      matches on `str` patterns): U+0009..U+000D, U+001C..U+001F, space, U+0085, U+00A0,
      U+1680, U+2000..U+200A, U+2028, U+2029, U+202F, U+205F and U+3000. */
  predicate IsSpace(c: char) {
    c == ' ' || ('\t' <= c <= '\r') || ('\U{1C}' <= c <= '\U{1F}') || c == '\U{85}' || c == '\U{A0}'
    || c == '\U{1680}' || ('\U{2000}' <= c <= '\U{200A}') || c == '\U{2028}' || c == '\U{2029}'
    || c == '\U{202F}' || c == '\U{205F}' || c == '\U{3000}'
  }

  /** The characters at which `str.splitlines` ends a line: U+000A..U+000D, U+001C..U+001E,
      U+0085, U+2028 and U+2029. */
  predicate IsLineBreak(c: char) {
    ('\n' <= c <= '\r') || ('\U{1C}' <= c <= '\U{1E}') || c == '\U{85}' || c == '\U{2028}' || c == '\U{2029}'
  }

  lemma LineBreakIsSpace(c: char)
    ensures IsLineBreak(c) ==> IsSpace(c)
  {}

  lemma DigitIsNotSpace(c: char)
    ensures IsAsciiDigit(c) ==> !IsSpace(c)
  {}

  predicate IsAsciiDigit(c: char) { '0' <= c <= '9' }
  predicate IsAsciiUpper(c: char) { 'A' <= c <= 'Z' }
  predicate IsAsciiLower(c: char) { 'a' <= c <= 'z' }

  predicate AllSpace(s: string) {
    forall i :: 0 <= i < |s| ==> IsSpace(s[i])
  }

  /** `s.startswith(prefix)`. */
  predicate StartsWith(s: string, prefix: string) {
    |prefix| <= |s| && s[..|prefix|] == prefix
  }

  lemma ConcatAssoc<T>(a: seq<T>, b: seq<T>, c: seq<T>)
    ensures a + (b + c) == (a + b) + c
  {}

  lemma StartsWithConcat(a: string, b: string)
    ensures StartsWith(a + b, a)
  {
    assert (a + b)[..|a|] == a;
  }

  lemma StartsWithExtend(a: string, b: string, prefix: string)
    requires StartsWith(a, prefix)
    ensures StartsWith(a + b, prefix)
  {
    assert (a + b)[..|prefix|] == a[..|prefix|];
  }

  /** A string that differs from `prefix` at some position does not start with it. */
  lemma NotStartsWith(s: string, prefix: string, i: nat)
    requires i < |prefix| && (i >= |s| || s[i] != prefix[i])
    ensures !StartsWith(s, prefix)
  {
    if |prefix| <= |s| {
      assert s[..|prefix|][i] == s[i];
    }
  }

  function Min(a: int, b: int): int { if a <= b then a else b }

  /** Python's `s[:n]` for a non-negative `n`. */
  function Take<T>(s: seq<T>, n: nat): (r: seq<T>)
    ensures |r| == Min(n, |s|) && r == s[..|r|]
  {
    if n <= |s| then s[..n] else s
  }

  /** `s.lstrip()`: the longest suffix of `s` that does not start with whitespace. */
  function TrimLeft(s: string): (r: string)
    ensures |r| <= |s| && r == s[|s| - |r|..]
    ensures r == [] || !IsSpace(r[0])
    ensures forall i :: 0 <= i < |s| - |r| ==> IsSpace(s[i])
    decreases |s|
  {
    if s != [] && IsSpace(s[0]) then TrimLeft(s[1..]) else s
  }

  /** `s.rstrip()`: the longest prefix of `s` that does not end with whitespace. */
  function TrimRight(s: string): (r: string)
    ensures |r| <= |s| && r == s[..|r|]
    ensures r == [] || !IsSpace(r[|r| - 1])
    ensures forall i :: |r| <= i < |s| ==> IsSpace(s[i])
    decreases |s|
  {
    if s != [] && IsSpace(s[|s| - 1]) then TrimRight(s[..|s| - 1]) else s
  }

  /** Trailing whitespace after a non-space character is all `rstrip` removes. */
  lemma {:induction false} TrimRightAfter(p: string, y: string)
    requires p != [] && !IsSpace(p[|p| - 1])
    ensures TrimRight(p + y) == p + TrimRight(y)
    decreases |y|
  {
    if y == [] {
      assert p + y == p;
    } else if IsSpace(y[|y| - 1]) {
      assert (p + y)[..|p + y| - 1] == p + y[..|y| - 1];
      TrimRightAfter(p, y[..|y| - 1]);
    }
  }

  /** On a string that starts with a non-space character `strip` is `rstrip`. */
  lemma StripFromNonSpace(s: string)
    requires s != [] && !IsSpace(s[0])
    ensures Strip(s) == TrimRight(s)
  {
    assert TrimLeft(s) == s;
  }

  /** `strip` on a string that begins and ends with non-space characters before some
      more text only trims that text's right end. */
  lemma StripBefore(p: string, y: string)
    requires p != [] && !IsSpace(p[0]) && !IsSpace(p[|p| - 1])
    ensures Strip(p + y) == p + TrimRight(y)
  {
    assert (p + y)[0] == p[0];
    StripFromNonSpace(p + y);
    TrimRightAfter(p, y);
  }

  /** `strip` returns a contiguous slice of its argument: character `i` of the result is
      character `i` after the leading whitespace. */
  lemma StripAt(s: string, i: nat)
    requires i < |Strip(s)|
    ensures |s| - |TrimLeft(s)| + i < |s| && Strip(s)[i] == s[|s| - |TrimLeft(s)| + i]
  {
    var l := TrimLeft(s);
    var r := TrimRight(l);
    assert Strip(s) == r;
    assert r[i] == l[i];
  }

  /** A string that `strip` leaves as it is. */
  predicate Stripped(s: string) {
    s == [] || (!IsSpace(s[0]) && !IsSpace(s[|s| - 1]))
  }

  /** `s.strip()`: `s` without its leading and trailing whitespace. */
  function Strip(s: string): (r: string)
    ensures r == [] <==> AllSpace(s)
    ensures Stripped(r)
  {
    var l := TrimLeft(s);
    assert l != [] ==> TrimRight(l) != [] && TrimRight(l)[0] == l[0];
    assert TrimRight(l) == [] ==> l == [];
    TrimRight(l)
  }

  lemma StripStripped(s: string)
    requires Stripped(s)
    ensures Strip(s) == s
  {
    assert TrimLeft(s) == s;
  }

  /** The non-whitespace characters of `s`, in order. */
  function NonSpace(s: string): (r: string)
    ensures |r| <= |s|
  {
    if s == [] then [] else (if IsSpace(s[0]) then [] else [s[0]]) + NonSpace(s[1..])
  }

  lemma {:induction false} NonSpaceConcat(a: string, b: string)
    ensures NonSpace(a + b) == NonSpace(a) + NonSpace(b)
  {
    if a == [] {
      assert a + b == b;
    } else {
      assert (a + b)[0] == a[0] && (a + b)[1..] == a[1..] + b;
      NonSpaceConcat(a[1..], b);
    }
  }

  lemma NonSpaceSnoc(s: string)
    requires s != []
    ensures NonSpace(s) == NonSpace(s[..|s| - 1]) + NonSpace([s[|s| - 1]])
  {
    var t := s[..|s| - 1];
    var c := [s[|s| - 1]];
    NonSpaceConcat(t, c);
    assert t + c == s;
  }

  /** A whitespace separator adds nothing to the non-whitespace content. */
  lemma NonSpaceAround(p: string, sep: string, y: string)
    requires AllSpace(sep)
    ensures NonSpace(p + sep + y) == NonSpace(p) + NonSpace(y)
  {
    NonSpaceAllSpace(sep);
    NonSpaceConcat(p, sep);
    NonSpaceConcat(p + sep, y);
    assert NonSpace(p) + [] == NonSpace(p);
  }

  lemma {:induction false} AllSpaceNonSpace(s: string)
    requires NonSpace(s) == []
    ensures AllSpace(s)
  {
    if s != [] { AllSpaceNonSpace(s[1..]); }
  }

  lemma {:induction false} NonSpaceAllSpace(s: string)
    requires AllSpace(s)
    ensures NonSpace(s) == []
  {
    if s != [] { NonSpaceAllSpace(s[1..]); }
  }

  lemma {:induction false} TrimLeftKeepsContent(s: string)
    ensures NonSpace(TrimLeft(s)) == NonSpace(s)
    decreases |s|
  {
    if s != [] && IsSpace(s[0]) { TrimLeftKeepsContent(s[1..]); }
  }

  lemma {:induction false} TrimRightKeepsContent(s: string)
    ensures NonSpace(TrimRight(s)) == NonSpace(s)
    decreases |s|
  {
    if s != [] && IsSpace(s[|s| - 1]) {
      var init := s[..|s| - 1];
      TrimRightKeepsContent(init);
      assert s == init + [s[|s| - 1]];
      NonSpaceConcat(init, [s[|s| - 1]]);
      assert NonSpace([s[|s| - 1]]) == [];
    }
  }

  /** Stripping removes whitespace only. */
  lemma StripKeepsContent(s: string)
    ensures NonSpace(Strip(s)) == NonSpace(s)
  {
    TrimLeftKeepsContent(s);
    TrimRightKeepsContent(TrimLeft(s));
  }

  /** `sep.join(xs)`. */
  function JoinWith(xs: seq<string>, sep: string): (r: string)
    ensures xs == [] ==> r == []
    ensures |xs| == 1 ==> r == xs[0]
  {
    if |xs| == 0 then []
    else if |xs| == 1 then xs[0]
    else JoinWith(xs[..|xs| - 1], sep) + sep + xs[|xs| - 1]
  }

  lemma JoinWithSnoc(xs: seq<string>, y: string, sep: string)
    ensures JoinWith(xs + [y], sep) == if xs == [] then y else JoinWith(xs, sep) + sep + y
  {
    assert (xs + [y])[..|xs|] == xs;
  }

  /** A join starts with the first item and ends with the last one. */
  lemma {:induction false} JoinWithEnds(xs: seq<string>, sep: string)
    requires xs != [] && forall i :: 0 <= i < |xs| ==> xs[i] != []
    ensures var r := JoinWith(xs, sep); r != [] && r[0] == xs[0][0] && r[|r| - 1] == xs[|xs| - 1][|xs[|xs| - 1]| - 1]
  {
    if |xs| > 1 {
      var init := xs[..|xs| - 1];
      assert init[0] == xs[0];
      JoinWithEnds(init, sep);
    }
  }

  lemma RegroupJoin(x: string, m: string, y: string, sep: string)
    ensures x + sep + m + sep + y == x + sep + (m + sep + y)
  {
    ConcatAssoc(x + sep, m + sep, y);
    ConcatAssoc(x + sep, m, sep);
  }

  /** Joining two non-empty lists is joining each and putting one separator between. */
  lemma {:induction false} JoinWithConcat(a: seq<string>, b: seq<string>, sep: string)
    requires a != [] && b != []
    ensures JoinWith(a + b, sep) == JoinWith(a, sep) + sep + JoinWith(b, sep)
    decreases |b|
  {
    var y := b[|b| - 1];
    var b' := b[..|b| - 1];
    assert a + b == (a + b') + [y];
    JoinWithSnoc(a + b', y, sep);
    if b' == [] {
      assert a + b' == a;
    } else {
      JoinWithConcat(a, b', sep);
      JoinWithSnoc(b', y, sep);
      assert b == b' + [y];
      RegroupJoin(JoinWith(a, sep), JoinWith(b', sep), y, sep);
    }
  }

  function DigitChar(d: nat): (c: char)
    requires d < 10
    ensures IsAsciiDigit(c)
  {
    ['0', '1', '2', '3', '4', '5', '6', '7', '8', '9'][d]
  }

  function DigitValue(c: char): nat
    requires IsAsciiDigit(c)
  {
    (c as int) - ('0' as int)
  }

  /** `str(n)` for a natural number: decimal digits, no leading zero. */
  function NatToString(n: nat): (r: string)
    ensures |r| >= 1 && (|r| > 1 ==> r[0] != '0')
    ensures forall i :: 0 <= i < |r| ==> IsAsciiDigit(r[i])
  {
    if n < 10 then [DigitChar(n)] else NatToString(n / 10) + [DigitChar(n % 10)]
  }

  /** `int(s)` for a string of decimal digits. */
  function ParseDecimal(s: string): nat
    requires forall i :: 0 <= i < |s| ==> IsAsciiDigit(s[i])
  {
    if s == [] then 0 else 10 * ParseDecimal(s[..|s| - 1]) + DigitValue(s[|s| - 1])
  }

  lemma {:induction false} ParseNatToString(n: nat)
    ensures ParseDecimal(NatToString(n)) == n
  {
    if n < 10 {
      assert NatToString(n)[..0] == [];
    } else {
      var s := NatToString(n);
      assert s[..|s| - 1] == NatToString(n / 10);
      ParseNatToString(n / 10);
    }
  }

  lemma NatToStringInjective(m: nat, n: nat)
    ensures NatToString(m) == NatToString(n) ==> m == n
  {
    ParseNatToString(m);
    ParseNatToString(n);
  }

  /** The number of occurrences of `c` in `s`. */
  function CountChar(s: string, c: char): nat {
    if s == [] then 0 else CountChar(s[..|s| - 1], c) + (if s[|s| - 1] == c then 1 else 0)
  }

  lemma {:induction false} CountCharConcat(a: string, b: string, c: char)
    ensures CountChar(a + b, c) == CountChar(a, c) + CountChar(b, c)
    decreases |b|
  {
    if b == [] {
      assert a + b == a;
    } else {
      var b' := b[..|b| - 1];
      assert (a + b)[..|a + b| - 1] == a + b';
      CountCharConcat(a, b', c);
    }
  }

  lemma {:induction false} CountCharAbsent(s: string, c: char)
    requires forall i :: 0 <= i < |s| ==> s[i] != c
    ensures CountChar(s, c) == 0
  {
    if s != [] {
      CountCharAbsent(s[..|s| - 1], c);
    }
  }
}
