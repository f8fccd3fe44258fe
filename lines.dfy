/** The line list of `pages_to_sections` (main.py:48-49) and the title clean-up of an
    accepted heading (main.py:68). */
module TextLines {
  import opened Strings
  import opened Whitespace

  predicate NoBreak(s: string) {
    forall i :: 0 <= i < |s| ==> !IsLineBreak(s[i])
  }

  /** `s.splitlines()`, cut at every line-break character. Python treats `"\r\n"` as one
      break and drops the piece after a final break; both only add empty pieces here,
      and the caller discards blank pieces. */
  function SplitLines(s: string): (r: seq<string>)
    ensures |r| >= 1
    ensures forall i :: 0 <= i < |r| ==> NoBreak(r[i])
  {
    if s == [] then [[]]
    else
      var init := SplitLines(s[..|s| - 1]);
      var c := s[|s| - 1];
      if IsLineBreak(c) then init + [[]]
      else init[..|init| - 1] + [init[|init| - 1] + [c]]
  }

  /** The concatenation of a list of strings. */
  function Flatten(xs: seq<string>): (r: string)
    ensures xs == [] ==> r == []
  {
    if xs == [] then [] else Flatten(xs[..|xs| - 1]) + xs[|xs| - 1]
  }

  lemma FlattenSnoc(xs: seq<string>, y: string)
    ensures Flatten(xs + [y]) == Flatten(xs) + y
  {
    assert (xs + [y])[..|xs|] == xs;
  }

  lemma {:induction false} FlattenConcat(a: seq<string>, b: seq<string>)
    ensures Flatten(a + b) == Flatten(a) + Flatten(b)
    decreases |b|
  {
    if b == [] {
      assert a + b == a;
    } else {
      var b' := b[..|b| - 1];
      assert (a + b)[..|a + b| - 1] == a + b';
      FlattenConcat(a, b');
    }
  }

  /** Appending a character that is not a line break extends the last piece. */
  lemma FlattenExtendLast(p: seq<string>, c: char)
    requires p != []
    ensures Flatten(p[..|p| - 1] + [p[|p| - 1] + [c]]) == Flatten(p) + [c]
  {
    var q := p[..|p| - 1];
    var y := p[|p| - 1];
    assert Flatten(p) == Flatten(q) + y;
    FlattenSnoc(q, y + [c]);
    ConcatAssoc(Flatten(q), y, [c]);
  }

  /** `s` with every line-break character read as a newline. */
  function BreaksAsNewlines(s: string): string {
    seq(|s|, i requires 0 <= i < |s| => if IsLineBreak(s[i]) then '\n' else s[i])
  }

  /** Appending a character that is not a line break extends the last item of a join. */
  lemma JoinWithExtendLast(p: seq<string>, c: char, sep: string)
    requires p != []
    ensures JoinWith(p[..|p| - 1] + [p[|p| - 1] + [c]], sep) == JoinWith(p, sep) + [c]
  {
    var q := p[..|p| - 1];
    var y := p[|p| - 1];
    assert p == q + [y];
    JoinWithSnoc(q, y + [c], sep);
    JoinWithSnoc(q, y, sep);
    if q != [] {
      ConcatAssoc(JoinWith(q, sep) + sep, y, [c]);
    }
  }

  lemma BreaksSnoc(t: string, c: char)
    ensures BreaksAsNewlines(t + [c]) == BreaksAsNewlines(t) + [if IsLineBreak(c) then '\n' else c]
  {
    var s := t + [c];
    assert forall i :: 0 <= i < |t| ==> s[i] == t[i];
  }

  /** The pieces joined by newlines give the text back, each line break read as a
      newline. As no piece holds a line break, the pieces are exactly the maximal runs
      between breaks, inner spaces included. */
  lemma {:induction false} SplitLinesJoin(s: string)
    ensures JoinWith(SplitLines(s), "\n") == BreaksAsNewlines(s)
  {
    if s != [] {
      var t := s[..|s| - 1];
      var c := s[|s| - 1];
      var p := SplitLines(t);
      SplitLinesJoin(t);
      assert s == t + [c];
      BreaksSnoc(t, c);
      if IsLineBreak(c) {
        assert SplitLines(s) == p + [[]];
        JoinWithSnoc(p, [], "\n");
        assert JoinWith(p, "\n") + "\n" + [] == JoinWith(p, "\n") + "\n";
      } else {
        assert SplitLines(s) == p[..|p| - 1] + [p[|p| - 1] + [c]];
        JoinWithExtendLast(p, c, "\n");
      }
    }
  }

  /** Splitting only removes line breaks, which are whitespace. */
  lemma {:induction false} SplitLinesKeepsContent(s: string)
    ensures NonSpace(Flatten(SplitLines(s))) == NonSpace(s)
  {
    if s != [] {
      var t := s[..|s| - 1];
      var c := s[|s| - 1];
      var p := SplitLines(t);
      SplitLinesKeepsContent(t);
      NonSpaceSnoc(s);
      if IsLineBreak(c) {
        LineBreakIsSpace(c);
        FlattenSnoc(p, []);
        assert Flatten(p) + [] == Flatten(p);
      } else {
        FlattenExtendLast(p, c);
        NonSpaceConcat(Flatten(p), [c]);
      }
    }
  }

  /** A line of the segmenter's input: non-empty, stripped, and without a newline. */
  predicate IsLine(l: string) {
    l != [] && Stripped(l) && NoChar(l, '\n')
  }

  /** `[ln.strip() for ln in pieces if ln.strip()]`. */
  function NonBlank(pieces: seq<string>): (r: seq<string>)
    requires forall i :: 0 <= i < |pieces| ==> NoBreak(pieces[i])
    ensures forall i :: 0 <= i < |r| ==> IsLine(r[i])
  {
    if pieces == [] then []
    else
      var p := pieces[|pieces| - 1];
      var l := Strip(p);
      assert NoBreak(p);
      assert NoChar(p, '\n') by {
        forall i | 0 <= i < |p| ensures p[i] != '\n' { assert !IsLineBreak(p[i]); }
      }
      StripKeepsNoChar(p, '\n');
      NonBlank(pieces[..|pieces| - 1]) + (if l != [] then [l] else [])
  }

  /** The stripped, non-blank lines of `raw`. */
  function Lines(raw: string): (r: seq<string>)
    ensures forall i :: 0 <= i < |r| ==> IsLine(r[i])
  {
    NonBlank(SplitLines(raw))
  }

  /** Every piece without its outer whitespace. */
  function StripAll(pieces: seq<string>): (r: seq<string>)
    ensures |r| == |pieces|
  {
    if pieces == [] then [] else StripAll(pieces[..|pieces| - 1]) + [Strip(pieces[|pieces| - 1])]
  }

  lemma {:induction false} StripAllAt(pieces: seq<string>, j: nat)
    requires j < |pieces|
    ensures StripAll(pieces)[j] == Strip(pieces[j])
  {
    if j < |pieces| - 1 {
      StripAllAt(pieces[..|pieces| - 1], j);
    }
  }

  /** The indices of the non-empty entries of `xs`, in order. */
  function Origins(xs: seq<string>): (r: seq<nat>)
    ensures |r| <= |xs|
  {
    if xs == [] then []
    else
      var n := |xs| - 1;
      Origins(xs[..n]) + (if xs[n] != [] then [n] else [])
  }

  /** The origins are exactly the indices of the non-empty entries, in increasing order. */
  lemma {:induction false} OriginsFilter(xs: seq<string>)
    ensures forall i :: 0 <= i < |Origins(xs)| ==> Origins(xs)[i] < |xs| && xs[Origins(xs)[i]] != []
    ensures forall i, j :: 0 <= i < j < |Origins(xs)| ==> Origins(xs)[i] < Origins(xs)[j]
    ensures forall j :: 0 <= j < |xs| && xs[j] != [] ==> j in Origins(xs)
  {
    if xs != [] {
      var n := |xs| - 1;
      var init := xs[..n];
      OriginsFilter(init);
      var o0 := Origins(init);
      var o := Origins(xs);
      assert o == o0 + (if xs[n] != [] then [n] else []);
      assert forall i :: 0 <= i < |o0| ==> o[i] == o0[i] && init[o0[i]] == xs[o0[i]];
      forall j | 0 <= j < |xs| && xs[j] != []
        ensures j in o
      {
        if j < n {
          assert init[j] == xs[j];
          assert j in o0;
        } else {
          assert o[|o0|] == n;
        }
      }
    }
  }

  /** The non-empty entries of `xs`, in order. */
  function Keep(xs: seq<string>): (r: seq<string>)
    ensures |r| <= |xs|
  {
    if xs == [] then []
    else
      var n := |xs| - 1;
      Keep(xs[..n]) + (if xs[n] != [] then [xs[n]] else [])
  }

  /** Entry `i` of `Keep(xs)` is entry `Origins(xs)[i]` of `xs`. */
  lemma {:induction false} KeepAt(xs: seq<string>)
    ensures |Origins(xs)| == |Keep(xs)|
    ensures forall i :: 0 <= i < |Keep(xs)| ==> Origins(xs)[i] < |xs| && Keep(xs)[i] == xs[Origins(xs)[i]]
  {
    if xs != [] {
      var n := |xs| - 1;
      var init := xs[..n];
      KeepAt(init);
      var k0 := Keep(init);
      var o0 := Origins(init);
      var k := Keep(xs);
      var o := Origins(xs);
      assert k == k0 + (if xs[n] != [] then [xs[n]] else []);
      assert o == o0 + (if xs[n] != [] then [n] else []);
      assert forall i :: 0 <= i < |o0| ==> o[i] == o0[i] && k[i] == k0[i] && init[o0[i]] == xs[o0[i]];
    }
  }

  /** `NonBlank` keeps the stripped pieces that are not empty. */
  lemma {:induction false} NonBlankIsKeep(pieces: seq<string>)
    requires forall i :: 0 <= i < |pieces| ==> NoBreak(pieces[i])
    ensures NonBlank(pieces) == Keep(StripAll(pieces))
  {
    if pieces != [] {
      var n := |pieces| - 1;
      NonBlankIsKeep(pieces[..n]);
      var ss := StripAll(pieces);
      assert ss == StripAll(pieces[..n]) + [Strip(pieces[n])];
      assert ss[..n] == StripAll(pieces[..n]);
    }
  }

  /** `NonBlank` keeps the non-empty stripped pieces: line `i` is the stripped piece
      `Origins(StripAll(pieces))[i]`. */
  lemma NonBlankAt(pieces: seq<string>)
    requires forall i :: 0 <= i < |pieces| ==> NoBreak(pieces[i])
    ensures |Origins(StripAll(pieces))| == |NonBlank(pieces)|
    ensures forall i :: 0 <= i < |NonBlank(pieces)| ==>
      Origins(StripAll(pieces))[i] < |pieces| && NonBlank(pieces)[i] == StripAll(pieces)[Origins(StripAll(pieces))[i]]
  {
    NonBlankIsKeep(pieces);
    KeepAt(StripAll(pieces));
  }

  /** Line `i` of `raw` is a `splitlines()` piece without its outer whitespace, inner
      spaces included; the pieces are taken in increasing order (`OriginsFilter`). */
  lemma LineFromPiece(raw: string, i: nat)
    requires i < |Lines(raw)|
    ensures var o := Origins(StripAll(SplitLines(raw)));
      i < |o| && o[i] < |SplitLines(raw)| && Lines(raw)[i] == Strip(SplitLines(raw)[o[i]])
  {
    var pieces := SplitLines(raw);
    NonBlankAt(pieces);
    StripAllAt(pieces, Origins(StripAll(pieces))[i]);
  }

  /** Every piece of `splitlines()` that is not blank gives a line. */
  lemma PieceGivesLine(raw: string, j: nat)
    requires j < |SplitLines(raw)| && Strip(SplitLines(raw)[j]) != []
    ensures j in Origins(StripAll(SplitLines(raw)))
  {
    StripAllAt(SplitLines(raw), j);
    OriginsFilter(StripAll(SplitLines(raw)));
  }

  lemma {:induction false} NonBlankKeepsContent(pieces: seq<string>)
    requires forall i :: 0 <= i < |pieces| ==> NoBreak(pieces[i])
    ensures NonSpace(Flatten(NonBlank(pieces))) == NonSpace(Flatten(pieces))
  {
    if pieces != [] {
      var init := pieces[..|pieces| - 1];
      var p := pieces[|pieces| - 1];
      NonBlankKeepsContent(init);
      assert Flatten(pieces) == Flatten(init) + p;
      NonSpaceConcat(Flatten(init), p);
      StripKeepsContent(p);
      var l := Strip(p);
      if l != [] {
        FlattenSnoc(NonBlank(init), l);
        NonSpaceConcat(Flatten(NonBlank(init)), l);
      } else {
        NonSpaceAllSpace(p);
        assert NonBlank(pieces) == NonBlank(init);
      }
    }
  }

  /** Every visible character of `raw` survives, in order, in its line list. */
  lemma LinesKeepContent(raw: string)
    ensures NonSpace(Flatten(Lines(raw))) == NonSpace(raw)
  {
    NonBlankKeepsContent(SplitLines(raw));
    SplitLinesKeepsContent(raw);
  }

  predicate IsAsciiLetter(c: char) { IsAsciiUpper(c) || IsAsciiLower(c) }

  function Upper(c: char): (r: char)
    ensures IsAsciiLetter(r) <==> IsAsciiLetter(c)
  {
    if IsAsciiLower(c) then (c as int - 32) as char else c
  }

  function Lower(c: char): (r: char)
    ensures IsAsciiLetter(r) <==> IsAsciiLetter(c)
  {
    if IsAsciiUpper(c) then (c as int + 32) as char else c
  }

  /** `str.title()` on the rest `s` of a string whose previous character was a letter
      exactly when `afterLetter` holds. */
  function TitleFrom(s: string, afterLetter: bool): (r: string)
    ensures |r| == |s|
  {
    if s == [] then []
    else
      var c := s[0];
      [if !IsAsciiLetter(c) then c else if afterLetter then Lower(c) else Upper(c)]
        + TitleFrom(s[1..], IsAsciiLetter(c))
  }

  /** `s.title()` with ASCII letters as the only cased characters. */
  function TitleCase(s: string): string {
    TitleFrom(s, false)
  }

  /** Python's description of `title()`: a letter is upper-cased when it starts a word
      (no letter before it) and lower-cased otherwise; other characters are kept. */
  lemma {:induction false} TitleFromAt(s: string, afterLetter: bool, i: nat)
    requires i < |s|
    ensures TitleFrom(s, afterLetter)[i] ==
      if !IsAsciiLetter(s[i]) then s[i]
      else if (if i == 0 then afterLetter else IsAsciiLetter(s[i - 1])) then Lower(s[i])
      else Upper(s[i])
  {
    if i > 0 {
      TitleFromAt(s[1..], IsAsciiLetter(s[0]), i - 1);
    }
  }

  lemma TitleCaseAt(s: string, i: nat)
    requires i < |s|
    ensures TitleCase(s)[i] ==
      if !IsAsciiLetter(s[i]) then s[i]
      else if i > 0 && IsAsciiLetter(s[i - 1]) then Lower(s[i])
      else Upper(s[i])
  {
    TitleFromAt(s, false, i);
  }

  /** `re.sub(r"\s+", " ", ln).title()`. */
  function CleanTitle(ln: string): (r: string)
    ensures |r| == |Squeeze(AnySpace, ln)|
  {
    TitleCase(Squeeze(AnySpace, ln))
  }

  /** The only whitespace left in a cleaned title is single spaces. */
  lemma CleanTitleSpaces(ln: string)
    ensures var r := CleanTitle(ln);
      forall i :: 0 <= i < |r| && IsSpace(r[i]) ==> r[i] == ' ' && (i + 1 < |r| ==> r[i + 1] != ' ')
  {
    var s := Squeeze(AnySpace, ln);
    var r := CleanTitle(ln);
    forall i | 0 <= i < |r| && IsSpace(r[i])
      ensures r[i] == ' ' && (i + 1 < |r| ==> r[i + 1] != ' ')
    {
      TitleCaseAt(s, i);
      assert r[i] == s[i];
      SqueezedShape(AnySpace, s, s[i]);
      if i + 1 < |r| {
        TitleCaseAt(s, i + 1);
        NoPairAt(s, ' ', i);
      }
    }
  }
}
