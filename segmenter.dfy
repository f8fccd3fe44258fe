/** `pages_to_sections` (main.py:43-83): a heading pass over the stripped, non-blank lines
    of the joined pages, and a fallback that cuts the joined pages into fixed-size parts
    when the heading pass finds fewer than three sections. */
module Segmenter {
  import opened Strings
  import opened Heading
  import opened TextLines

  datatype Section = Section(title: string, text: string)

  const IntroTitle: string := "Introduction"
  const TitleLimit: nat := 120
  const BufferLimit: nat := 300
  const ChunkSize: nat := 8000
  const MinSections: nat := 3

  /** `"\n\n".join(pages)`: the text both passes read. */
  function Merged(pages: seq<string>): string {
    JoinWith(pages, "\n\n")
  }

  /** The section bodies, in order. */
  function Texts(sections: seq<Section>): (r: seq<string>)
    ensures |r| == |sections|
  {
    if sections == [] then [] else Texts(sections[..|sections| - 1]) + [sections[|sections| - 1].text]
  }

  /** `push(title, body_list)`: a section only when the joined body is not blank. */
  function Push(sections: seq<Section>, title: string, buf: seq<string>): seq<Section> {
    var body := Strip(JoinWith(buf, "\n"));
    if body != [] then sections + [Section(Take(title, TitleLimit), body)] else sections
  }

  /** The state of the heading pass: the emitted sections, the line buffer and the
      current title. */
  datatype Scan = Scan(sections: seq<Section>, buf: seq<string>, title: string)

  const Start: Scan := Scan([], [], IntroTitle)

  /** A line that closes the current section and names the next. */
  predicate Opens(st: Scan, ln: string) {
    IsHeading(ln) && (|st.buf| > BufferLimit || st.sections == [])
  }

  function Step(st: Scan, ln: string): Scan {
    if Opens(st, ln) then Scan(Push(st.sections, st.title, st.buf), [], CleanTitle(ln))
    else Scan(st.sections, st.buf + [ln], st.title)
  }

  /** The state after the heading pass has read `lines`. */
  function Run(lines: seq<string>): Scan {
    if lines == [] then Start else Step(Run(lines[..|lines| - 1]), lines[|lines| - 1])
  }

  /** The sections of the heading pass, including the final `push`. */
  function HeadingPass(lines: seq<string>): seq<Section> {
    var st := Run(lines);
    Push(st.sections, st.title, st.buf)
  }

  /** The lines the heading pass keeps as body text, in order. */
  function BodyLines(lines: seq<string>): seq<string> {
    if lines == [] then []
    else
      var init := lines[..|lines| - 1];
      BodyLines(init) + (if Opens(Run(init), lines[|lines| - 1]) then [] else [lines[|lines| - 1]])
  }

  /** The lines the heading pass takes as titles, in order. */
  function TitleLines(lines: seq<string>): seq<string> {
    if lines == [] then []
    else
      var init := lines[..|lines| - 1];
      TitleLines(init) + (if Opens(Run(init), lines[|lines| - 1]) then [lines[|lines| - 1]] else [])
  }

  /** `merged[i:i+8000]` for `i` in `range(start, len(merged), 8000)`. */
  function PiecesFrom(s: string, start: nat): seq<string>
    requires start <= |s|
    decreases |s| - start
  {
    if start == |s| then []
    else [s[start..Min(start + ChunkSize, |s|)]] + PiecesFrom(s, Min(start + ChunkSize, |s|))
  }

  function Pieces(s: string): seq<string> {
    PiecesFrom(s, 0)
  }

  /** The pieces for which `chunk.strip()` is not empty (they are not all whitespace, by
      the contract of `Strip`), in order. */
  function Kept(pieces: seq<string>): seq<string> {
    if pieces == [] then []
    else
      var p := pieces[|pieces| - 1];
      Kept(pieces[..|pieces| - 1]) + (if !AllSpace(p) then [p] else [])
  }

  /** `f"Part {n}"`. */
  function PartTitle(n: nat): string {
    "Part " + NatToString(n)
  }

  /** Sections titled `Part 1`, `Part 2`, ... in order. */
  function Label(texts: seq<string>): (r: seq<Section>)
    ensures |r| == |texts|
  {
    if texts == [] then [] else Label(texts[..|texts| - 1]) + [Section(PartTitle(|texts|), texts[|texts| - 1])]
  }

  function Fallback(merged: string): seq<Section> {
    Label(Kept(Pieces(merged)))
  }

  /** The result of `pages_to_sections(pages)`. */
  function Segment(pages: seq<string>): seq<Section> {
    var merged := Merged(pages);
    var hs := HeadingPass(Lines(merged));
    if |hs| < MinSections then Fallback(merged) else hs
  }

  lemma RunPrefix(lines: seq<string>, n: nat)
    requires n < |lines|
    ensures Run(lines[..n + 1]) == Step(Run(lines[..n]), lines[n])
  {
    assert lines[..n + 1][..n] == lines[..n];
  }

  /** The heading pass of `pages_to_sections` (main.py:51-72). */
  method ScanLines(lines: seq<string>) returns (sections: seq<Section>)
    ensures sections == HeadingPass(lines)
  {
    sections := [];
    var buf: seq<string> := [];
    var curTitle := IntroTitle;
    for n := 0 to |lines|
      invariant Scan(sections, buf, curTitle) == Run(lines[..n])
    {
      var ln := lines[n];
      RunPrefix(lines, n);
      if IsHeading(ln) && (|buf| > BufferLimit || sections == []) {
        sections := Push(sections, curTitle, buf);
        curTitle := CleanTitle(ln);
        buf := [];
      } else {
        buf := buf + [ln];
      }
    }
    assert lines[..|lines|] == lines;
    sections := Push(sections, curTitle, buf);
  }

  lemma KeptSnoc(pieces: seq<string>, p: string)
    ensures Kept(pieces + [p]) == if !AllSpace(p) then Kept(pieces) + [p] else Kept(pieces)
  {
    assert (pieces + [p])[..|pieces|] == pieces;
  }

  lemma LabelSnoc(texts: seq<string>, t: string)
    ensures Label(texts + [t]) == Label(texts) + [Section(PartTitle(|texts| + 1), t)]
  {
    assert (texts + [t])[..|texts|] == texts;
  }

  lemma PiecesStep(s: string, done: seq<string>, i: nat)
    requires i < |s| && Pieces(s) == done + PiecesFrom(s, i)
    ensures Pieces(s) == (done + [s[i..Min(i + ChunkSize, |s|)]]) + PiecesFrom(s, Min(i + ChunkSize, |s|))
  {
    var rest := PiecesFrom(s, Min(i + ChunkSize, |s|));
    assert PiecesFrom(s, i) == [s[i..Min(i + ChunkSize, |s|)]] + rest;
  }

  /** The fallback of `pages_to_sections` (main.py:75-82). */
  method CutParts(merged: string) returns (sections: seq<Section>)
    ensures sections == Fallback(merged)
  {
    sections := [];
    var i := 0;
    ghost var done: seq<string> := [];
    while i < |merged|
      invariant i <= |merged|
      invariant Pieces(merged) == done + PiecesFrom(merged, i)
      invariant sections == Label(Kept(done))
      decreases |merged| - i
    {
      var end := Min(i + ChunkSize, |merged|);
      var chunk := merged[i..end];
      KeptSnoc(done, chunk);
      if !AllSpace(chunk) {
        LabelSnoc(Kept(done), chunk);
        assert |sections| == |Kept(done)|;
        sections := sections + [Section(PartTitle(|sections| + 1), chunk)];
        assert sections == Label(Kept(done) + [chunk]);
      } else {
        assert Kept(done + [chunk]) == Kept(done);
      }
      PiecesStep(merged, done, i);
      done := done + [chunk];
      i := end;
    }
    assert done + [] == done;
  }

  method PagesToSections(pages: seq<string>) returns (sections: seq<Section>)
    ensures sections == Segment(pages)
  {
    var raw := JoinWith(pages, "\n\n");
    var lines := Lines(raw);
    sections := ScanLines(lines);
    if |sections| < MinSections {
      var merged := JoinWith(pages, "\n\n");
      sections := CutParts(merged);
    }
  }

  // ---- Heading pass ----

  /** Every section the heading pass emits has a non-blank stripped body and a title of at
      most 120 characters. */
  predicate WellFormed(s: Section) {
    s.text != [] && Stripped(s.text) && |s.title| <= TitleLimit
  }

  predicate AllWellFormed(sections: seq<Section>) {
    forall i :: 0 <= i < |sections| ==> WellFormed(sections[i])
  }

  lemma PushWellFormed(sections: seq<Section>, title: string, buf: seq<string>)
    requires AllWellFormed(sections)
    ensures AllWellFormed(Push(sections, title, buf))
  {
    var body := Strip(JoinWith(buf, "\n"));
    if body != [] {
      var s := Section(Take(title, TitleLimit), body);
      assert WellFormed(s);
      assert Push(sections, title, buf) == sections + [s];
      forall i | 0 <= i < |sections| + 1
        ensures WellFormed((sections + [s])[i])
      {
        if i < |sections| {
          assert (sections + [s])[i] == sections[i];
        }
      }
    } else {
      assert Push(sections, title, buf) == sections;
    }
  }

  lemma {:induction false} RunWellFormed(lines: seq<string>)
    ensures AllWellFormed(Run(lines).sections)
  {
    if lines != [] {
      var init := lines[..|lines| - 1];
      var ln := lines[|lines| - 1];
      RunWellFormed(init);
      var st := Run(init);
      assert Run(lines) == Step(st, ln);
      if Opens(st, ln) {
        PushWellFormed(st.sections, st.title, st.buf);
        assert Run(lines).sections == Push(st.sections, st.title, st.buf);
      } else {
        assert Run(lines).sections == st.sections;
      }
    }
  }

  lemma HeadingPassWellFormed(lines: seq<string>)
    ensures AllWellFormed(HeadingPass(lines))
  {
    RunWellFormed(lines);
    var st := Run(lines);
    PushWellFormed(st.sections, st.title, st.buf);
  }

  /** Each input line is either a body line or a title line. */
  lemma {:induction false} LinesPartitioned(lines: seq<string>)
    ensures |BodyLines(lines)| + |TitleLines(lines)| == |lines|
    ensures forall i :: 0 <= i < |TitleLines(lines)| ==> IsHeading(TitleLines(lines)[i])
  {
    if lines != [] {
      var init := lines[..|lines| - 1];
      LinesPartitioned(init);
      var t := TitleLines(init);
      var ln := lines[|lines| - 1];
      if Opens(Run(init), ln) {
        assert TitleLines(lines) == t + [ln];
        assert forall i :: 0 <= i < |t| ==> TitleLines(lines)[i] == t[i];
      }
    }
  }

  // ---- Where the heading-pass titles come from ----

  /** The titles the heading pass can give a buffer, in order: `Introduction`, then the
      cleaned form of each line it takes as a title. */
  function Heads(lines: seq<string>): (r: seq<string>)
    ensures |r| >= 1 && r[0] == IntroTitle
  {
    if lines == [] then [IntroTitle]
    else
      var init := lines[..|lines| - 1];
      Heads(init) + (if Opens(Run(init), lines[|lines| - 1]) then [CleanTitle(lines[|lines| - 1])] else [])
  }

  /** After `Introduction`, the candidate titles are the title lines, cleaned. */
  lemma {:induction false} HeadsAt(lines: seq<string>)
    ensures |Heads(lines)| == |TitleLines(lines)| + 1
    ensures forall j :: 0 <= j < |TitleLines(lines)| ==> Heads(lines)[j + 1] == CleanTitle(TitleLines(lines)[j])
  {
    if lines != [] {
      var init := lines[..|lines| - 1];
      var ln := lines[|lines| - 1];
      HeadsAt(init);
      if Opens(Run(init), ln) {
        var t := TitleLines(init);
        var h := Heads(init);
        assert TitleLines(lines) == t + [ln];
        assert Heads(lines) == h + [CleanTitle(ln)];
        forall j | 0 <= j < |t| + 1
          ensures Heads(lines)[j + 1] == CleanTitle(TitleLines(lines)[j])
        {
          if j < |t| {
            assert TitleLines(lines)[j] == t[j];
            assert Heads(lines)[j + 1] == h[j + 1];
          }
        }
      }
    }
  }

  /** The sections are titled, in order, by distinct entries of `heads`, each cut to 120
      characters: the section titles form a subsequence of the cut candidate titles. */
  predicate DrawnFrom(sections: seq<Section>, heads: seq<string>)
    decreases |heads|
  {
    sections == [] ||
    (heads != [] &&
      ((sections[|sections| - 1].title == Take(heads[|heads| - 1], TitleLimit)
         && DrawnFrom(sections[..|sections| - 1], heads[..|heads| - 1]))
       || DrawnFrom(sections, heads[..|heads| - 1])))
  }

  /** Each section drawn from `heads` is titled by one of them. */
  lemma {:induction false} DrawnFromAt(sections: seq<Section>, heads: seq<string>, i: nat)
    requires DrawnFrom(sections, heads) && i < |sections|
    ensures exists j :: 0 <= j < |heads| && sections[i].title == Take(heads[j], TitleLimit)
    decreases |heads|
  {
    var h := heads[..|heads| - 1];
    if DrawnFrom(sections, h) {
      DrawnFromAt(sections, h, i);
      var j :| 0 <= j < |h| && sections[i].title == Take(h[j], TitleLimit);
      assert h[j] == heads[j];
    } else if i == |sections| - 1 {
      assert sections[i].title == Take(heads[|heads| - 1], TitleLimit);
    } else {
      var s := sections[..|sections| - 1];
      DrawnFromAt(s, h, i);
      var j :| 0 <= j < |h| && s[i].title == Take(h[j], TitleLimit);
      assert s[i] == sections[i] && h[j] == heads[j];
    }
  }

  /** `push` under the last candidate title keeps the titles drawn from the candidates. */
  lemma PushDrawn(sections: seq<Section>, title: string, buf: seq<string>, heads: seq<string>)
    requires heads != [] && title == heads[|heads| - 1]
    requires DrawnFrom(sections, heads[..|heads| - 1])
    ensures DrawnFrom(Push(sections, title, buf), heads)
  {
    var body := Strip(JoinWith(buf, "\n"));
    var p := Push(sections, title, buf);
    if body != [] {
      assert p == sections + [Section(Take(title, TitleLimit), body)];
      assert p[..|p| - 1] == sections;
    } else {
      assert p == sections;
    }
  }

  /** The loop's title is the last candidate, and the sections it has emitted are titled
      by the candidates before it. */
  lemma {:induction false} RunTitles(lines: seq<string>)
    ensures var h := Heads(lines);
      Run(lines).title == h[|h| - 1] && DrawnFrom(Run(lines).sections, h[..|h| - 1])
  {
    if lines == [] {
      assert Heads(lines)[..0] == [];
    } else {
      var init := lines[..|lines| - 1];
      var ln := lines[|lines| - 1];
      RunTitles(init);
      var st := Run(init);
      var h := Heads(init);
      assert Run(lines) == Step(st, ln);
      if Opens(st, ln) {
        assert Heads(lines) == h + [CleanTitle(ln)];
        assert (h + [CleanTitle(ln)])[..|h|] == h;
        PushDrawn(st.sections, st.title, st.buf, h);
      } else {
        assert Heads(lines) == h;
      }
    }
  }

  /** The heading-pass section titles are drawn, in order, from the candidate titles cut
      to 120 characters, no candidate used twice. Which candidate titles which section is
      `HeadingPassSectionAt`. */
  lemma HeadingPassTitles(lines: seq<string>)
    ensures DrawnFrom(HeadingPass(lines), Heads(lines))
  {
    RunTitles(lines);
    var st := Run(lines);
    PushDrawn(st.sections, st.title, st.buf, Heads(lines));
  }

  /** The same, one section at a time, in terms of the title lines. */
  lemma HeadingPassTitleAt(lines: seq<string>, i: nat)
    requires i < |HeadingPass(lines)|
    ensures var t := HeadingPass(lines)[i].title;
      t == Take(IntroTitle, TitleLimit)
      || exists j :: 0 <= j < |TitleLines(lines)| && t == Take(CleanTitle(TitleLines(lines)[j]), TitleLimit)
  {
    HeadingPassTitles(lines);
    HeadsAt(lines);
    var hs := HeadingPass(lines);
    DrawnFromAt(hs, Heads(lines), i);
    var j :| 0 <= j < |Heads(lines)| && hs[i].title == Take(Heads(lines)[j], TitleLimit);
    if j > 0 {
      assert Heads(lines)[(j - 1) + 1] == CleanTitle(TitleLines(lines)[j - 1]);
    }
  }

  // ---- Which lines each section is made of ----

  /** A title candidate with the lines buffered under it, until the next line that opens
      a section. */
  datatype Group = Group(head: string, body: seq<string>)

  /** The lines cut at every line that opens a section: a first group under
      `Introduction`, then one group per opening line, headed by its cleaned form. */
  function Groups(lines: seq<string>): (r: seq<Group>)
    ensures |r| >= 1
  {
    if lines == [] then [Group(IntroTitle, [])]
    else
      var init := lines[..|lines| - 1];
      NextGroups(Groups(init), Opens(Run(init), lines[|lines| - 1]), lines[|lines| - 1])
  }

  /** Reading `ln`: an opening line starts a new group headed by its cleaned form, any
      other line joins the last group. */
  function NextGroups(gs: seq<Group>, opens: bool, ln: string): (r: seq<Group>)
    requires gs != []
    ensures |r| >= 1
  {
    var g := gs[|gs| - 1];
    if opens then gs + [Group(CleanTitle(ln), [])]
    else gs[..|gs| - 1] + [Group(g.head, g.body + [ln])]
  }

  /** Each group pushed in turn: a section titled by its head, holding its joined body,
      unless that body is blank. */
  function Emit(gs: seq<Group>): seq<Section> {
    if gs == [] then [] else Push(Emit(gs[..|gs| - 1]), gs[|gs| - 1].head, gs[|gs| - 1].body)
  }

  /** The loop state holds the sections of every group but the last, and the last group
      as its buffer and title. */
  predicate Tracks(st: Scan, gs: seq<Group>) {
    gs != [] && st == Scan(Emit(gs[..|gs| - 1]), gs[|gs| - 1].body, gs[|gs| - 1].head)
  }

  lemma {:induction false} RunGroups(lines: seq<string>)
    ensures Tracks(Run(lines), Groups(lines))
  {
    if lines != [] {
      var init := lines[..|lines| - 1];
      var ln := lines[|lines| - 1];
      RunGroups(init);
      var st := Run(init);
      var gs := Groups(init);
      var g := gs[|gs| - 1];
      var gs' := Groups(lines);
      assert Run(lines) == Step(st, ln);
      if Opens(st, ln) {
        assert gs' == gs + [Group(CleanTitle(ln), [])];
        assert gs'[..|gs'| - 1] == gs;
        assert Emit(gs) == Push(st.sections, st.title, st.buf);
      } else {
        assert gs' == gs[..|gs| - 1] + [Group(g.head, g.body + [ln])];
        assert gs'[..|gs'| - 1] == gs[..|gs| - 1];
      }
    }
  }

  /** The heading pass emits the groups, in order: each section is titled by the head of
      the group whose lines it holds. */
  lemma HeadingPassGroups(lines: seq<string>)
    ensures HeadingPass(lines) == Emit(Groups(lines))
  {
    RunGroups(lines);
  }

  /** The group heads are the candidate titles, one group per candidate. */
  lemma {:induction false} GroupHeads(lines: seq<string>)
    ensures |Groups(lines)| == |Heads(lines)|
    ensures forall i :: 0 <= i < |Groups(lines)| ==> Groups(lines)[i].head == Heads(lines)[i]
  {
    if lines != [] {
      var init := lines[..|lines| - 1];
      var ln := lines[|lines| - 1];
      GroupHeads(init);
      var gs := Groups(init);
      var g := gs[|gs| - 1];
      var h := Heads(init);
      if Opens(Run(init), ln) {
        assert Groups(lines) == gs + [Group(CleanTitle(ln), [])];
        assert Heads(lines) == h + [CleanTitle(ln)];
      } else {
        assert Groups(lines) == gs[..|gs| - 1] + [Group(g.head, g.body + [ln])];
        assert Heads(lines) == h;
      }
    }
  }

  /** The group bodies, one after another. */
  function Bodies(gs: seq<Group>): seq<string> {
    if gs == [] then [] else Bodies(gs[..|gs| - 1]) + gs[|gs| - 1].body
  }

  lemma BodiesSnoc(gs: seq<Group>, g: Group)
    ensures Bodies(gs + [g]) == Bodies(gs) + g.body
  {
    assert (gs + [g])[..|gs|] == gs;
  }

  lemma BodiesExtend(front: seq<Group>, g: Group, ln: string)
    ensures Bodies(front + [Group(g.head, g.body + [ln])]) == Bodies(front + [g]) + [ln]
  {
    BodiesSnoc(front, g);
    BodiesSnoc(front, Group(g.head, g.body + [ln]));
  }

  /** Reading a line adds it to the bodies exactly when it does not open a group. */
  lemma BodiesNext(gs: seq<Group>, opens: bool, ln: string)
    requires gs != []
    ensures Bodies(NextGroups(gs, opens, ln)) == Bodies(gs) + (if opens then [] else [ln])
  {
    var g := gs[|gs| - 1];
    if opens {
      BodiesSnoc(gs, Group(CleanTitle(ln), []));
    } else {
      var front := gs[..|gs| - 1];
      assert gs == front + [g];
      BodiesExtend(front, g, ln);
    }
  }

  /** The groups split the body lines and nothing else: read one after another, their
      bodies are the lines not taken as titles, in order. */
  lemma {:induction false} GroupBodies(lines: seq<string>)
    ensures Bodies(Groups(lines)) == BodyLines(lines)
  {
    if lines != [] {
      var init := lines[..|lines| - 1];
      var ln := lines[|lines| - 1];
      GroupBodies(init);
      var opens := Opens(Run(init), ln);
      assert BodyLines(lines) == BodyLines(init) + (if opens then [] else [ln]);
      assert Groups(lines) == NextGroups(Groups(init), opens, ln);
      BodiesNext(Groups(init), opens, ln);
    }
  }

  /** The body of each group, joined with line breaks. */
  function Joined(gs: seq<Group>): (r: seq<string>)
    ensures |r| == |gs|
  {
    if gs == [] then [] else Joined(gs[..|gs| - 1]) + [JoinWith(gs[|gs| - 1].body, "\n")]
  }

  lemma {:induction false} JoinedAt(gs: seq<Group>, j: nat)
    requires j < |gs|
    ensures Joined(gs)[j] == JoinWith(gs[j].body, "\n")
  {
    if j < |gs| - 1 {
      JoinedAt(gs[..|gs| - 1], j);
    }
  }

  /** The joined, stripped body of each group. */
  function GroupTexts(gs: seq<Group>): (r: seq<string>)
    ensures |r| == |gs|
  {
    StripAll(Joined(gs))
  }

  lemma GroupTextAt(gs: seq<Group>, j: nat)
    requires j < |gs|
    ensures GroupTexts(gs)[j] == Strip(JoinWith(gs[j].body, "\n"))
  {
    JoinedAt(gs, j);
    StripAllAt(Joined(gs), j);
  }

  /** A section for every group whose text in `ts` is not empty, titled by its head. */
  function Sections(gs: seq<Group>, ts: seq<string>): seq<Section>
    requires |ts| == |gs|
  {
    if gs == [] then []
    else
      var n := |gs| - 1;
      Sections(gs[..n], ts[..n]) + (if ts[n] != [] then [Section(Take(gs[n].head, TitleLimit), ts[n])] else [])
  }

  lemma {:induction false} EmitSections(gs: seq<Group>)
    ensures Emit(gs) == Sections(gs, GroupTexts(gs))
  {
    if gs != [] {
      var n := |gs| - 1;
      EmitSections(gs[..n]);
      var js := Joined(gs);
      assert js == Joined(gs[..n]) + [JoinWith(gs[n].body, "\n")];
      assert js[..n] == Joined(gs[..n]);
      var ts := GroupTexts(gs);
      assert ts == StripAll(js[..n]) + [Strip(js[n])];
      assert ts[..n] == GroupTexts(gs[..n]);
    }
  }

  lemma {:induction false} SectionsAt(gs: seq<Group>, ts: seq<string>)
    requires |ts| == |gs|
    ensures |Sections(gs, ts)| == |Origins(ts)|
    ensures forall k :: 0 <= k < |Sections(gs, ts)| ==>
      Origins(ts)[k] < |gs| && Sections(gs, ts)[k] == Section(Take(gs[Origins(ts)[k]].head, TitleLimit), ts[Origins(ts)[k]])
  {
    if gs != [] {
      var n := |gs| - 1;
      var g0 := gs[..n];
      var ts0 := ts[..n];
      SectionsAt(g0, ts0);
      var e0 := Sections(g0, ts0);
      var o0 := Origins(ts0);
      var e := Sections(gs, ts);
      var o := Origins(ts);
      assert o == o0 + (if ts[n] != [] then [n] else []);
      assert e == e0 + (if ts[n] != [] then [Section(Take(gs[n].head, TitleLimit), ts[n])] else []);
      assert forall k :: 0 <= k < |o0| ==> o[k] == o0[k] && e[k] == e0[k] && g0[o0[k]] == gs[o0[k]] && ts0[o0[k]] == ts[o0[k]];
    }
  }

  /** Section `k` of `Emit(gs)` is group `Origins(GroupTexts(gs))[k]`: its head cut to
      120 characters, and its body text. By `OriginsFilter`, these are the groups whose
      body is not blank, in order. */
  lemma EmitAt(gs: seq<Group>)
    ensures |Emit(gs)| == |Origins(GroupTexts(gs))|
    ensures forall k :: 0 <= k < |Emit(gs)| ==>
      Origins(GroupTexts(gs))[k] < |gs| &&
      Emit(gs)[k] == Section(Take(gs[Origins(GroupTexts(gs))[k]].head, TitleLimit), GroupTexts(gs)[Origins(GroupTexts(gs))[k]])
  {
    EmitSections(gs);
    SectionsAt(gs, GroupTexts(gs));
  }

  /** Heading-pass section `k` is made of one group: the group's head, cut to 120
      characters, is its title and the group's joined, stripped lines are its text. The
      groups used are increasing (`OriginsFilter`). */
  lemma HeadingPassSectionAt(lines: seq<string>, k: nat)
    requires k < |HeadingPass(lines)|
    ensures var gs := Groups(lines);
      var o := Origins(GroupTexts(gs));
      k < |o| && o[k] < |gs|
      && HeadingPass(lines)[k] == Section(Take(gs[o[k]].head, TitleLimit), Strip(JoinWith(gs[o[k]].body, "\n")))
  {
    var gs := Groups(lines);
    HeadingPassGroups(lines);
    EmitAt(gs);
    GroupTextAt(gs, Origins(GroupTexts(gs))[k]);
  }

  /** Every group whose lines are not blank gives a section. */
  lemma GroupGivesSection(lines: seq<string>, j: nat)
    requires j < |Groups(lines)| && Strip(JoinWith(Groups(lines)[j].body, "\n")) != []
    ensures j in Origins(GroupTexts(Groups(lines)))
  {
    GroupTextAt(Groups(lines), j);
    OriginsFilter(GroupTexts(Groups(lines)));
  }

  /** A heading read while the buffer is empty emits nothing: its title replaces the
      pending one, which is lost. */
  lemma HeadingOverEmptyBuffer(st: Scan, ln: string)
    requires Opens(st, ln) && st.buf == []
    ensures Step(st, ln) == Scan(st.sections, [], CleanTitle(ln))
  {
    assert Strip(JoinWith([], "\n")) == [];
  }

  /** A heading taken as the last line adds nothing: the final `push` of its empty buffer
      emits no section, so its title never appears. */
  lemma LastHeadingDropped(init: seq<string>, ln: string)
    requires Opens(Run(init), ln)
    ensures HeadingPass(init + [ln]) == HeadingPass(init)
  {
    assert (init + [ln])[..|init|] == init;
    assert Strip(JoinWith([], "\n")) == [];
  }

  lemma RunThree(a: string, b: string, c: string)
    ensures Run([a, b, c]) == Step(Step(Step(Start, a), b), c)
  {
    var lines := [a, b, c];
    assert lines[..0] == [] && lines[..3] == lines;
    RunPrefix(lines, 0);
    RunPrefix(lines, 1);
    RunPrefix(lines, 2);
  }

  /** `push` of a one-line buffer emits that line as the body. */
  lemma PushOne(title: string, c: string)
    requires IsLine(c)
    ensures Push([], title, [c]) == [Section(Take(title, TitleLimit), c)]
  {
    JoinLinesStripped([c]);
    assert JoinWith([c], "\n") == c;
  }

  /** Two headings in a row at the start, then a body line: the first heading opens an
      empty buffer, so only the second one titles a section. */
  lemma FirstOfTwoHeadingsLost(a: string, b: string, c: string)
    requires IsHeading(a) && IsHeading(b) && !IsHeading(c) && IsLine(c)
    ensures HeadingPass([a, b, c]) == [Section(Take(CleanTitle(b), TitleLimit), c)]
  {
    HeadingOverEmptyBuffer(Start, a);
    var s1 := Scan([], [], CleanTitle(a));
    HeadingOverEmptyBuffer(s1, b);
    var s2 := Scan([], [], CleanTitle(b));
    StepAppends(s2, c);
    RunThree(a, b, c);
    assert Run([a, b, c]) == Scan([], [c], CleanTitle(b));
    PushOne(CleanTitle(b), c);
  }

  /** An instance: `CHAPTER ONE`, then `INTRODUCTION`, then one body line. The chapter
      heading never titles a section. */
  lemma ChapterHeadingReplaced()
    ensures HeadingPass(["CHAPTER ONE", "INTRODUCTION", "Some text."])
      == [Section(Take(CleanTitle("INTRODUCTION"), TitleLimit), "Some text.")]
  {
    ExampleHeadings();
    SomeTextNotHeading();
    SomeTextLine();
    FirstOfTwoHeadingsLost("CHAPTER ONE", "INTRODUCTION", "Some text.");
  }

  lemma ExampleHeadings()
    ensures IsHeading("CHAPTER ONE") && IsHeading("INTRODUCTION")
  {
    assert CapsLine("CHAPTER ONE") && CapsLine("INTRODUCTION");
  }

  lemma SomeTextLine()
    ensures IsLine("Some text.")
  {}

  lemma SomeTextNotHeading()
    ensures !IsHeading("Some text.")
  {
    var c := "Some text.";
    assert !IsCapsChar(c[1]);
    assert SkipDigits(c, 0) == 0;
    NotStartsWith(c, "Chapter", 0);
    NotStartsWith(c, "Section", 1);
  }

  predicate AllLines(xs: seq<string>) {
    forall i :: 0 <= i < |xs| ==> IsLine(xs[i])
  }

  /** The bodies a state stands for: those emitted so far, then the buffer as one more. */
  function Pending(st: Scan): seq<string> {
    Texts(st.sections) + (if st.buf == [] then [] else [JoinWith(st.buf, "\n")])
  }

  lemma TextsSnoc(sections: seq<Section>, s: Section)
    ensures Texts(sections + [s]) == Texts(sections) + [s.text]
  {
    assert (sections + [s])[..|sections|] == sections;
  }

  lemma {:induction false} RunBuffer(lines: seq<string>)
    requires AllLines(lines)
    ensures AllLines(Run(lines).buf)
  {
    if lines != [] {
      var init := lines[..|lines| - 1];
      assert AllLines(init) by {
        forall i | 0 <= i < |init| ensures IsLine(init[i]) { assert init[i] == lines[i]; }
      }
      RunBuffer(init);
      var b := Run(init).buf;
      var ln := lines[|lines| - 1];
      assert IsLine(ln);
      if !Opens(Run(init), ln) {
        assert forall i :: 0 <= i < |b| ==> (b + [ln])[i] == b[i];
      }
    }
  }

  /** Stripped non-blank lines joined by newlines need no further `strip`. */
  lemma JoinLinesStripped(buf: seq<string>)
    requires AllLines(buf) && buf != []
    ensures JoinWith(buf, "\n") != [] && Strip(JoinWith(buf, "\n")) == JoinWith(buf, "\n")
  {
    assert forall i :: 0 <= i < |buf| ==> buf[i] != [] && Stripped(buf[i]);
    JoinWithEnds(buf, "\n");
    StripStripped(JoinWith(buf, "\n"));
  }

  /** `push` turns the buffer into exactly one more body, or into none when it is empty. */
  lemma PushPending(st: Scan)
    requires AllLines(st.buf)
    ensures Texts(Push(st.sections, st.title, st.buf)) == Pending(st)
  {
    if st.buf == [] {
      assert Strip(JoinWith(st.buf, "\n")) == [];
    } else {
      JoinLinesStripped(st.buf);
      TextsSnoc(st.sections, Section(Take(st.title, TitleLimit), JoinWith(st.buf, "\n")));
    }
  }

  /** The step for a line that opens a new section. */
  lemma ClosePending(st: Scan, title: string)
    requires AllLines(st.buf)
    ensures Pending(Scan(Push(st.sections, st.title, st.buf), [], title)) == Pending(st)
  {
    var p := Push(st.sections, st.title, st.buf);
    PushPending(st);
    assert Pending(Scan(p, [], title)) == Texts(p) + [];
    assert Texts(p) + [] == Texts(p);
  }

  /** The step for a line appended to the buffer. */
  lemma AppendPending(st: Scan, ln: string, body: seq<string>)
    requires AllLines(st.buf) && IsLine(ln)
    requires JoinWith(Pending(st), "\n") == JoinWith(body, "\n")
    requires Pending(st) == [] <==> body == []
    ensures JoinWith(Pending(Scan(st.sections, st.buf + [ln], st.title)), "\n") == JoinWith(body + [ln], "\n")
  {
    var t := Texts(st.sections);
    JoinWithSnoc(body, ln, "\n");
    JoinWithSnoc(st.buf, ln, "\n");
    JoinWithSnoc(t, JoinWith(st.buf + [ln], "\n"), "\n");
    if st.buf == [] {
      assert st.buf + [ln] == [ln];
      assert Pending(st) == t;
    } else {
      assert Pending(st) == t + [JoinWith(st.buf, "\n")];
      JoinWithSnoc(t, JoinWith(st.buf, "\n"), "\n");
      if t != [] {
        RegroupJoin(JoinWith(t, "\n"), JoinWith(st.buf, "\n"), ln, "\n");
      }
    }
  }

  /** One step keeps the pending bodies in line with the body lines read so far. */
  lemma StepPending(st: Scan, ln: string, body: seq<string>)
    requires AllLines(st.buf) && IsLine(ln)
    requires JoinWith(Pending(st), "\n") == JoinWith(body, "\n")
    requires Pending(st) == [] <==> body == []
    ensures var body' := body + (if Opens(st, ln) then [] else [ln]);
      JoinWith(Pending(Step(st, ln)), "\n") == JoinWith(body', "\n") && (Pending(Step(st, ln)) == [] <==> body' == [])
  {
    if Opens(st, ln) {
      ClosePending(st, CleanTitle(ln));
      assert body + [] == body;
    } else {
      AppendPending(st, ln, body);
    }
  }

  lemma {:induction false} RunContent(lines: seq<string>)
    requires AllLines(lines)
    ensures JoinWith(Pending(Run(lines)), "\n") == JoinWith(BodyLines(lines), "\n")
    ensures Pending(Run(lines)) == [] <==> BodyLines(lines) == []
  {
    if lines != [] {
      var init := lines[..|lines| - 1];
      assert AllLines(init) by {
        forall i | 0 <= i < |init| ensures IsLine(init[i]) { assert init[i] == lines[i]; }
      }
      RunContent(init);
      RunBuffer(init);
      StepPending(Run(init), lines[|lines| - 1], BodyLines(init));
    }
  }

  /** Joining the section bodies of the heading pass gives back its body lines, in
      order: no line is lost, duplicated or moved. */
  lemma HeadingPassContent(lines: seq<string>)
    requires AllLines(lines)
    ensures JoinWith(Texts(HeadingPass(lines)), "\n") == JoinWith(BodyLines(lines), "\n")
  {
    RunContent(lines);
    RunBuffer(lines);
    PushPending(Run(lines));
  }

  // ---- Fallback ----

  /** Piece `k` is `merged[i:i+8000]` for the `k`-th `i` of the range. */
  lemma {:induction false} PiecesFromAt(s: string, start: nat, k: nat)
    requires start <= |s| && k < |PiecesFrom(s, start)|
    ensures start + k * 8000 < |s|
    ensures PiecesFrom(s, start)[k] == s[start + k * 8000..Min(start + (k + 1) * 8000, |s|)]
    decreases k
  {
    if k > 0 {
      var next := Min(start + ChunkSize, |s|);
      PiecesFromAt(s, next, k - 1);
    }
  }

  lemma {:induction false} PiecesFromCover(s: string, start: nat)
    requires start <= |s|
    ensures Flatten(PiecesFrom(s, start)) == s[start..]
    ensures forall k :: 0 <= k < |PiecesFrom(s, start)| ==> 0 < |PiecesFrom(s, start)[k]| <= ChunkSize
    decreases |s| - start
  {
    if start < |s| {
      var next := Min(start + ChunkSize, |s|);
      var p := s[start..next];
      PiecesFromCover(s, next);
      FlattenConcat([p], PiecesFrom(s, next));
      assert Flatten([p]) == p by { FlattenSnoc([], p); }
      assert s[start..] == p + s[next..];
    }
  }

  /** The pieces cover the joined text exactly, each at most 8000 characters long. */
  lemma PiecesCover(s: string)
    ensures Flatten(Pieces(s)) == s
    ensures forall k :: 0 <= k < |Pieces(s)| ==> 0 < |Pieces(s)[k]| <= ChunkSize
  {
    PiecesFromCover(s, 0);
  }

  /** `Kept` keeps exactly the pieces that are not all whitespace. */
  lemma {:induction false} KeptFilters(pieces: seq<string>)
    ensures forall k :: 0 <= k < |Kept(pieces)| ==> !AllSpace(Kept(pieces)[k]) && Kept(pieces)[k] in pieces
    ensures forall k :: 0 <= k < |pieces| && !AllSpace(pieces[k]) ==> pieces[k] in Kept(pieces)
  {
    if pieces != [] {
      var init := pieces[..|pieces| - 1];
      var p := pieces[|pieces| - 1];
      KeptFilters(init);
      assert forall k :: 0 <= k < |init| ==> init[k] == pieces[k];
    }
  }

  lemma {:induction false} KeptContent(pieces: seq<string>)
    ensures NonSpace(Flatten(Kept(pieces))) == NonSpace(Flatten(pieces))
  {
    if pieces != [] {
      var init := pieces[..|pieces| - 1];
      var p := pieces[|pieces| - 1];
      KeptContent(init);
      NonSpaceConcat(Flatten(init), p);
      if !AllSpace(p) {
        FlattenSnoc(Kept(init), p);
        NonSpaceConcat(Flatten(Kept(init)), p);
      } else {
        NonSpaceAllSpace(p);
        assert Kept(pieces) == Kept(init) + [];
        assert Kept(pieces) == Kept(init);
        assert NonSpace(Flatten(pieces)) == NonSpace(Flatten(init)) + [];
        assert NonSpace(Flatten(pieces)) == NonSpace(Flatten(init));
      }
    }
  }

  lemma {:induction false} LabelAt(texts: seq<string>, j: nat)
    requires j < |texts|
    ensures Label(texts)[j] == Section(PartTitle(j + 1), texts[j])
  {
    if j < |texts| - 1 {
      LabelAt(texts[..|texts| - 1], j);
    }
  }

  lemma {:induction false} TextsLabel(texts: seq<string>)
    ensures Texts(Label(texts)) == texts
  {
    if texts != [] {
      var init := texts[..|texts| - 1];
      TextsLabel(init);
      TextsSnoc(Label(init), Section(PartTitle(|texts|), texts[|texts| - 1]));
    }
  }

  lemma PartTitleInjective(m: nat, n: nat)
    ensures PartTitle(m) == PartTitle(n) ==> m == n
  {
    if PartTitle(m) == PartTitle(n) {
      assert NatToString(m) == PartTitle(m)[5..];
      assert NatToString(n) == PartTitle(n)[5..];
      NatToStringInjective(m, n);
    }
  }

  /** The fallback sections are titled `Part 1`, `Part 2`, ... without gaps, and each holds
      one non-blank piece of at most 8000 characters of the joined text. */
  lemma FallbackShape(merged: string)
    ensures forall j :: 0 <= j < |Fallback(merged)| ==>
      Fallback(merged)[j].title == PartTitle(j + 1)
      && 0 < |Fallback(merged)[j].text| <= ChunkSize
      && !AllSpace(Fallback(merged)[j].text)
      && Fallback(merged)[j].text in Pieces(merged)
  {
    var kept := Kept(Pieces(merged));
    KeptFilters(Pieces(merged));
    PiecesCover(merged);
    forall j | 0 <= j < |Fallback(merged)|
      ensures Fallback(merged)[j] == Section(PartTitle(j + 1), kept[j])
    {
      LabelAt(kept, j);
    }
  }

  /** Only whitespace of the joined text is missing from the fallback, in order. */
  lemma FallbackContent(merged: string)
    ensures NonSpace(Flatten(Texts(Fallback(merged)))) == NonSpace(merged)
  {
    TextsLabel(Kept(Pieces(merged)));
    KeptContent(Pieces(merged));
    PiecesCover(merged);
  }

  // ---- The whole segmentation ----

  lemma NonSpaceFlattenLast(xs: seq<string>)
    requires xs != [] && !AllSpace(xs[|xs| - 1])
    ensures NonSpace(Flatten(xs)) != []
  {
    var last := xs[|xs| - 1];
    NonSpaceConcat(Flatten(xs[..|xs| - 1]), last);
    if NonSpace(last) == [] {
      AllSpaceNonSpace(last);
    }
  }

  lemma LineNotBlank(l: string)
    requires IsLine(l)
    ensures !AllSpace(l)
  {
    assert !IsSpace(l[0]);
  }

  /** `pages_to_sections` returns no section exactly when the joined pages hold nothing
      but whitespace. */
  lemma SegmentEmpty(pages: seq<string>)
    ensures Segment(pages) == [] <==> AllSpace(Merged(pages))
  {
    var merged := Merged(pages);
    FallbackEmpty(merged);
    if AllSpace(merged) {
      BlankHeadingPass(merged);
    }
  }

  /** The fallback is empty exactly when the text is whitespace only. */
  lemma FallbackEmpty(merged: string)
    ensures Fallback(merged) == [] <==> AllSpace(merged)
  {
    var f := Fallback(merged);
    FallbackContent(merged);
    FallbackShape(merged);
    if AllSpace(merged) {
      NonSpaceAllSpace(merged);
      if f != [] {
        assert Texts(f)[|f| - 1] == f[|f| - 1].text;
        NonSpaceFlattenLast(Texts(f));
      }
    } else if f == [] {
      AllSpaceNonSpace(merged);
    }
  }

  /** A whitespace-only text has no lines, so the heading pass finds nothing. */
  lemma BlankHeadingPass(merged: string)
    requires AllSpace(merged)
    ensures Lines(merged) == [] && HeadingPass(Lines(merged)) == []
  {
    var lines := Lines(merged);
    NonSpaceAllSpace(merged);
    LinesKeepContent(merged);
    if lines != [] {
      LineNotBlank(lines[|lines| - 1]);
      NonSpaceFlattenLast(lines);
    }
    assert Strip(JoinWith([], "\n")) == [];
  }

  lemma HeadingPassNonBlank(lines: seq<string>)
    ensures forall j :: 0 <= j < |HeadingPass(lines)| ==> !AllSpace(HeadingPass(lines)[j].text)
  {
    var hs := HeadingPass(lines);
    HeadingPassWellFormed(lines);
    forall j | 0 <= j < |hs| ensures !AllSpace(hs[j].text) {
      assert WellFormed(hs[j]);
      assert !IsSpace(hs[j].text[0]);
    }
  }

  /** Every section of `pages_to_sections` has a non-blank body. */
  lemma SegmentNonBlank(pages: seq<string>)
    ensures forall j :: 0 <= j < |Segment(pages)| ==> !AllSpace(Segment(pages)[j].text)
  {
    var merged := Merged(pages);
    var hs := HeadingPass(Lines(merged));
    if |hs| < MinSections {
      assert Segment(pages) == Fallback(merged);
      FallbackShape(merged);
    } else {
      assert Segment(pages) == hs;
      HeadingPassNonBlank(Lines(merged));
    }
  }

  /** A line that is not a heading joins the buffer. */
  lemma StepAppends(st: Scan, ln: string)
    requires !IsHeading(ln)
    ensures Step(st, ln) == Scan(st.sections, st.buf + [ln], st.title)
  {}

  /** No line of `lines` is a heading. */
  predicate NoHeading(lines: seq<string>) {
    lines == [] || (NoHeading(lines[..|lines| - 1]) && !IsHeading(lines[|lines| - 1]))
  }

  lemma {:induction false} NoHeadingAll(lines: seq<string>)
    requires forall i :: 0 <= i < |lines| ==> !IsHeading(lines[i])
    ensures NoHeading(lines)
  {
    if lines != [] {
      var init := lines[..|lines| - 1];
      assert forall i :: 0 <= i < |init| ==> init[i] == lines[i];
      NoHeadingAll(init);
    }
  }

  lemma {:induction false} RunNoHeading(lines: seq<string>)
    requires NoHeading(lines)
    ensures Run(lines) == Scan([], lines, IntroTitle)
  {
    if lines != [] {
      var init := lines[..|lines| - 1];
      var ln := lines[|lines| - 1];
      RunNoHeading(init);
      StepAppends(Run(init), ln);
      assert init + [ln] == lines;
    }
  }

  /** Without a heading line the heading pass yields at most the `Introduction` section,
      so the result is the fallback. */
  lemma NoHeadingFallback(pages: seq<string>)
    requires forall i :: 0 <= i < |Lines(Merged(pages))| ==> !IsHeading(Lines(Merged(pages))[i])
    ensures |HeadingPass(Lines(Merged(pages)))| <= 1
    ensures Segment(pages) == Fallback(Merged(pages))
  {
    NoHeadingAll(Lines(Merged(pages)));
    RunNoHeading(Lines(Merged(pages)));
  }

  /** A heading accepted while the buffer is empty, as the very first line always is,
      emits no section. */
  lemma FirstHeadingEmitsNothing(lines: seq<string>)
    requires lines != [] && IsHeading(lines[0])
    ensures Run(lines[..1]) == Scan([], [], CleanTitle(lines[0]))
  {
    assert lines[..1][..0] == [];
    assert Strip(JoinWith([], "\n")) == [];
  }

  /** Every section after the first that the loop closes held more than 300 lines. */
  predicate LongAfterFirst(sections: seq<Section>) {
    forall j :: 0 < j < |sections| ==> CountChar(sections[j].text, '\n') >= BufferLimit
  }

  lemma {:induction false} JoinLinesCount(buf: seq<string>)
    requires AllLines(buf) && buf != []
    ensures CountChar(JoinWith(buf, "\n"), '\n') == |buf| - 1
  {
    var last := buf[|buf| - 1];
    assert IsLine(last);
    CountCharAbsent(last, '\n');
    if |buf| > 1 {
      var init := buf[..|buf| - 1];
      assert AllLines(init) by {
        forall i | 0 <= i < |init| ensures IsLine(init[i]) { assert init[i] == buf[i]; }
      }
      JoinLinesCount(init);
      CountCharConcat(JoinWith(init, "\n") + "\n", last, '\n');
      CountCharConcat(JoinWith(init, "\n"), "\n", '\n');
    }
  }

  lemma ClosedLong(st: Scan, ln: string)
    requires AllLines(st.buf) && LongAfterFirst(st.sections) && Opens(st, ln)
    ensures LongAfterFirst(Push(st.sections, st.title, st.buf))
  {
    if st.buf != [] {
      var body := JoinWith(st.buf, "\n");
      JoinLinesStripped(st.buf);
      JoinLinesCount(st.buf);
      var r := Push(st.sections, st.title, st.buf);
      assert r == st.sections + [Section(Take(st.title, TitleLimit), body)];
      forall j | 0 < j < |r|
        ensures CountChar(r[j].text, '\n') >= BufferLimit
      {
        if j < |st.sections| {
          assert r[j] == st.sections[j];
        } else {
          assert |st.buf| > BufferLimit;
        }
      }
    }
  }

  lemma {:induction false} RunLong(lines: seq<string>)
    requires AllLines(lines)
    ensures LongAfterFirst(Run(lines).sections)
  {
    if lines != [] {
      var init := lines[..|lines| - 1];
      assert AllLines(init) by {
        forall i | 0 <= i < |init| ensures IsLine(init[i]) { assert init[i] == lines[i]; }
      }
      RunLong(init);
      RunBuffer(init);
      if Opens(Run(init), lines[|lines| - 1]) {
        ClosedLong(Run(init), lines[|lines| - 1]);
      }
    }
  }

  /** The final `push` adds at most one section, so only the last may be short. */
  lemma PushLongButLast(sections: seq<Section>, title: string, buf: seq<string>)
    requires LongAfterFirst(sections)
    ensures var hs := Push(sections, title, buf);
      forall j :: 0 < j < |hs| - 1 ==> CountChar(hs[j].text, '\n') >= BufferLimit
  {
    var hs := Push(sections, title, buf);
    var body := Strip(JoinWith(buf, "\n"));
    if body != [] {
      assert hs == sections + [Section(Take(title, TitleLimit), body)];
      assert forall j :: 0 <= j < |sections| ==> hs[j] == sections[j];
    }
  }

  /** The `len(buf) > 300` guard, seen in the result: every section of the heading pass
      other than the first and the last holds more than 300 lines. */
  lemma HeadingPassLong(lines: seq<string>)
    requires AllLines(lines)
    ensures var hs := HeadingPass(lines);
      forall j :: 0 < j < |hs| - 1 ==> CountChar(hs[j].text, '\n') >= BufferLimit
  {
    RunLong(lines);
    var st := Run(lines);
    PushLongButLast(st.sections, st.title, st.buf);
  }
}
