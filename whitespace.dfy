/** `re.sub(pattern, c, s)` for the three whitespace-run patterns of the source:
    `[ \t]+` to a space, `\n{2,}` to a newline and `\s+` to a space.
    Each replaces every maximal run of a character class by one character of that class
    (replacing a lone newline by a newline changes nothing, so `\n{2,}` and `\n+` agree). */
module Whitespace {
  import opened Strings

  datatype RunClass = Blanks | Newlines | AnySpace

  predicate InRun(k: RunClass, c: char) {
    match k
    case Blanks => c == ' ' || c == '\t'
    case Newlines => c == '\n'
    case AnySpace => IsSpace(c)
  }

  function Rep(k: RunClass): (c: char)
    ensures InRun(k, c) && IsSpace(c)
  {
    match k
    case Blanks => ' '
    case Newlines => '\n'
    case AnySpace => ' '
  }

  /** Every class character is the replacement character and is not followed by another. */
  predicate Squeezed(k: RunClass, s: string)
    decreases |s|
  {
    s == [] ||
    ((InRun(k, s[0]) ==> s[0] == Rep(k) && (|s| > 1 ==> !InRun(k, s[1]))) && Squeezed(k, s[1..]))
  }

  /** `s` without its leading run of class characters. */
  function DropRun(k: RunClass, s: string): (r: string)
    ensures |r| <= |s| && r == s[|s| - |r|..]
    ensures r == [] || !InRun(k, r[0])
    ensures forall i :: 0 <= i < |s| - |r| ==> InRun(k, s[i])
    decreases |s|
  {
    if s != [] && InRun(k, s[0]) then
      var r := DropRun(k, s[1..]);
      assert s[1..][|s| - 1 - |r|..] == s[|s| - |r|..];
      assert forall i :: 1 <= i < |s| - |r| ==> s[i] == s[1..][i - 1];
      r
    else s
  }

  function Squeeze(k: RunClass, s: string): (r: string)
    ensures r == [] <==> s == []
    ensures s != [] ==> r[0] == if InRun(k, s[0]) then Rep(k) else s[0]
    ensures Squeezed(k, r)
    decreases |s|
  {
    if s == [] then []
    else if InRun(k, s[0]) then [Rep(k)] + Squeeze(k, DropRun(k, s))
    else [s[0]] + Squeeze(k, s[1..])
  }

  /** A string already in squeezed form is left alone. */
  lemma {:induction false} SqueezeSqueezed(k: RunClass, s: string)
    requires Squeezed(k, s)
    ensures Squeeze(k, s) == s
    decreases |s|
  {
    if s != [] {
      SqueezeSqueezed(k, s[1..]);
      if InRun(k, s[0]) {
        assert DropRun(k, s[1..]) == s[1..];
      }
      assert s == [s[0]] + s[1..];
    }
  }

  /** The run `DropRun` removes is whitespace. */
  lemma DropRunContent(k: RunClass, s: string)
    ensures NonSpace(DropRun(k, s)) == NonSpace(s)
  {
    var d := DropRun(k, s);
    var run := s[..|s| - |d|];
    assert AllSpace(run) by {
      forall i | 0 <= i < |run| ensures IsSpace(run[i]) {
        assert InRun(k, s[i]);
      }
    }
    assert s == run + d;
    NonSpaceConcat(run, d);
    NonSpaceAllSpace(run);
  }

  /** Squeezing rewrites whitespace only. */
  lemma {:induction false} SqueezeKeepsContent(k: RunClass, s: string)
    ensures NonSpace(Squeeze(k, s)) == NonSpace(s)
    decreases |s|
  {
    if s != [] {
      if InRun(k, s[0]) {
        var d := DropRun(k, s);
        DropRunContent(k, s);
        SqueezeKeepsContent(k, d);
        assert Squeeze(k, s) == [Rep(k)] + Squeeze(k, d);
        NonSpaceConcat([Rep(k)], Squeeze(k, d));
      } else {
        var t := s[1..];
        SqueezeKeepsContent(k, t);
        assert Squeeze(k, s) == [s[0]] + Squeeze(k, t);
        NonSpaceConcat([s[0]], Squeeze(k, t));
        assert s == [s[0]] + t;
        NonSpaceConcat([s[0]], t);
      }
    }
  }

  /** The characters of `s` outside the class, in order. */
  function Outside(k: RunClass, s: string): (r: string)
    ensures |r| <= |s|
    decreases |s|
  {
    if s == [] then [] else (if InRun(k, s[0]) then [] else [s[0]]) + Outside(k, s[1..])
  }

  lemma {:induction false} DropRunOutside(k: RunClass, s: string)
    ensures Outside(k, DropRun(k, s)) == Outside(k, s)
    decreases |s|
  {
    if s != [] && InRun(k, s[0]) {
      DropRunOutside(k, s[1..]);
    }
  }

  /** Squeezing rewrites class characters only: every other character survives, in order
      (under `[ \t]+` the newlines, under `\n{2,}` the spaces and tabs). */
  lemma {:induction false} SqueezeKeepsOutside(k: RunClass, s: string)
    ensures Outside(k, Squeeze(k, s)) == Outside(k, s)
    decreases |s|
  {
    if s != [] {
      var r := Squeeze(k, s);
      if InRun(k, s[0]) {
        var d := DropRun(k, s);
        DropRunOutside(k, s);
        SqueezeKeepsOutside(k, d);
        assert r[0] == Rep(k) && r[1..] == Squeeze(k, d);
      } else {
        SqueezeKeepsOutside(k, s[1..]);
        assert r[0] == s[0] && r[1..] == Squeeze(k, s[1..]);
      }
    }
  }

  /** `s` with every class character replaced by the class's replacement character. */
  function Marked(k: RunClass, s: string): (r: string)
    ensures |r| == |s|
    decreases |s|
  {
    if s == [] then [] else [if InRun(k, s[0]) then Rep(k) else s[0]] + Marked(k, s[1..])
  }

  /** `s` without every `c` that directly follows another `c`. */
  function Dedup(c: char, s: string): string
    decreases |s|
  {
    if |s| <= 1 then s
    else if s[0] == c && s[1] == c then Dedup(c, s[1..])
    else [s[0]] + Dedup(c, s[1..])
  }

  lemma DedupKeep(c: char, x: char, t: string)
    requires x != c || t == [] || t[0] != c
    ensures Dedup(c, [x] + t) == [x] + Dedup(c, t)
  {
    assert ([x] + t)[1..] == t;
  }

  lemma DedupDrop(c: char, t: string)
    requires t != [] && t[0] == c
    ensures Dedup(c, [c] + t) == Dedup(c, t)
  {
    assert ([c] + t)[1..] == t;
  }

  /** A run read from its start: the marked run collapses to one replacement character,
      followed by the rest of the text. */
  lemma {:induction false} DedupRun(k: RunClass, s: string)
    requires s != [] && InRun(k, s[0])
    ensures Dedup(Rep(k), Marked(k, s)) == [Rep(k)] + Dedup(Rep(k), Marked(k, DropRun(k, s)))
    decreases |s|
  {
    var c := Rep(k);
    var t := s[1..];
    assert Marked(k, s) == [c] + Marked(k, t);
    if t == [] {
      DedupKeep(c, c, []);
    } else if InRun(k, t[0]) {
      DedupRun(k, t);
      DedupDrop(c, Marked(k, t));
    } else {
      assert DropRun(k, t) == t;
      DedupKeep(c, c, Marked(k, t));
    }
  }

  /** Squeezing is the independent two-step rewrite: mark every class character with the
      replacement, then drop each replacement that follows another. So each maximal run
      becomes exactly one replacement character, in its place, and nothing else changes. */
  lemma {:induction false} SqueezeIsDedup(k: RunClass, s: string)
    ensures Squeeze(k, s) == Dedup(Rep(k), Marked(k, s))
    decreases |s|
  {
    if s != [] {
      var m := Marked(k, s);
      if InRun(k, s[0]) {
        DedupRun(k, s);
        SqueezeIsDedup(k, DropRun(k, s));
      } else {
        var t := s[1..];
        SqueezeIsDedup(k, t);
        assert m == [s[0]] + Marked(k, t);
        DedupKeep(Rep(k), s[0], Marked(k, t));
      }
    }
  }

  /** `c` does not occur in `s`. */
  predicate NoChar(s: string, c: char) {
    forall i :: 0 <= i < |s| ==> s[i] != c
  }

  /** `c` never occurs twice in a row in `s`. */
  predicate NoPair(s: string, c: char)
    decreases |s|
  {
    |s| < 2 || (!(s[0] == c && s[1] == c) && NoPair(s[1..], c))
  }

  lemma {:induction false} NoPairSuffix(s: string, c: char, n: nat)
    requires NoPair(s, c) && n <= |s|
    ensures NoPair(s[n..], c)
    decreases n
  {
    if n > 0 {
      if |s| >= 2 {
        NoPairSuffix(s[1..], c, n - 1);
        assert s[1..][n - 1..] == s[n..];
      } else {
        assert |s[n..]| < 2;
      }
    }
  }

  lemma {:induction false} NoPairPrefix(s: string, c: char, m: nat)
    requires NoPair(s, c) && m <= |s|
    ensures NoPair(s[..m], c)
    decreases m
  {
    if m >= 2 {
      NoPairPrefix(s[1..], c, m - 1);
      assert s[..m][1..] == s[1..][..m - 1];
    }
  }

  /** Stripping cannot introduce a character. */
  lemma StripKeepsNoChar(s: string, c: char)
    requires NoChar(s, c)
    ensures NoChar(Strip(s), c)
  {
    forall i | 0 <= i < |Strip(s)| ensures Strip(s)[i] != c {
      StripAt(s, i);
    }
  }

  /** Stripping cannot double a character. */
  lemma StripKeepsNoPair(s: string, c: char)
    requires NoPair(s, c)
    ensures NoPair(Strip(s), c)
  {
    var l := TrimLeft(s);
    NoPairSuffix(s, c, |s| - |l|);
    NoPairPrefix(l, c, |TrimRight(l)|);
  }

  /** Squeezing one class cannot introduce a character outside it. */
  lemma {:induction false} SqueezeKeepsNoChar(k: RunClass, s: string, c: char)
    requires !InRun(k, c) && NoChar(s, c)
    ensures NoChar(Squeeze(k, s), c)
    decreases |s|
  {
    if s != [] {
      var rest := if InRun(k, s[0]) then DropRun(k, s) else s[1..];
      assert |rest| < |s| && rest == s[|s| - |rest|..];
      forall i | 0 <= i < |rest| ensures rest[i] != c { assert rest[i] == s[i + |s| - |rest|]; }
      SqueezeKeepsNoChar(k, rest, c);
      var t := Squeeze(k, rest);
      assert Squeeze(k, s) == [Squeeze(k, s)[0]] + t;
      forall i | 0 <= i < |Squeeze(k, s)| ensures Squeeze(k, s)[i] != c {
        if i > 0 { assert Squeeze(k, s)[i] == t[i - 1]; }
      }
    }
  }

  /** Squeezing one class cannot double a character outside it. */
  lemma {:induction false} SqueezeKeepsNoPair(k: RunClass, s: string, c: char)
    requires !InRun(k, c) && NoPair(s, c)
    ensures NoPair(Squeeze(k, s), c)
    decreases |s|
  {
    if s != [] {
      var rest := if InRun(k, s[0]) then DropRun(k, s) else s[1..];
      assert |rest| < |s| && rest == s[|s| - |rest|..];
      NoPairSuffix(s, c, |s| - |rest|);
      SqueezeKeepsNoPair(k, rest, c);
      var t := Squeeze(k, rest);
      assert Squeeze(k, s) == [Squeeze(k, s)[0]] + t;
      assert !InRun(k, s[0]) && t != [] ==> t[0] == (if InRun(k, s[1]) then Rep(k) else s[1]);
    }
  }

  /** In squeezed form the replacement character is never doubled, and no other
      class character is left. */
  lemma {:induction false} SqueezedShape(k: RunClass, s: string, c: char)
    requires Squeezed(k, s)
    ensures NoPair(s, Rep(k))
    ensures InRun(k, c) && c != Rep(k) ==> NoChar(s, c)
    decreases |s|
  {
    if s != [] {
      SqueezedShape(k, s[1..], c);
      if InRun(k, c) && c != Rep(k) {
        forall i | 0 <= i < |s| ensures s[i] != c {
          if i > 0 { assert s[i] == s[1..][i - 1]; }
        }
      }
    }
  }

  /** Conversely, a string whose class characters are all the replacement character,
      never doubled, is in squeezed form. */
  lemma {:induction false} ShapeSqueezed(k: RunClass, s: string)
    requires forall i :: 0 <= i < |s| && InRun(k, s[i]) ==> s[i] == Rep(k)
    requires NoPair(s, Rep(k))
    ensures Squeezed(k, s)
    decreases |s|
  {
    if s != [] {
      assert forall i :: 0 <= i < |s[1..]| ==> s[1..][i] == s[i + 1];
      ShapeSqueezed(k, s[1..]);
    }
  }

  /** `NoPair` spelled out position by position. */
  lemma {:induction false} NoPairAt(s: string, c: char, i: nat)
    requires NoPair(s, c) && i + 1 < |s|
    ensures !(s[i] == c && s[i + 1] == c)
    decreases i
  {
    if i > 0 {
      NoPairAt(s[1..], c, i - 1);
    }
  }
}
