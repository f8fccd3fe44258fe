/** `render_markdown` (main.py:142-171): the Markdown document as a list of lines, joined
    by newlines and stripped. A "line" below is an entry of that list (`out`): an entry
    holds several lines of the rendered text when a reply string contains a newline, so
    the structure lemmas are about the entries, not the rendered string's lines. */
module Render {
  import opened Wrappers
  import opened Strings
  import opened Replies

  /** The prefix of a second-level Markdown heading. */
  const H2: string := "## "
  const ComprehensionHeading: string := H2 + "Comprehension-Based Q&A (Whole Chapter)"
  const RevisionHeading: string := H2 + "Extra Revision Q&A (Cross-Linking)"
  const DefaultSectionTitle: string := "Section"

  /** The first entry of `out`: `f"# {chapter_title}\n"`. */
  function Header(title: string): string {
    "# " + title + "\n"
  }

  /** `f"**Q{n}. {qa.get('q','')}**"`. */
  function QuestionLine(n: nat, qa: QA): string {
    "**Q" + NatToString(n) + ". " + qa.q.GetOr("") + "**"
  }

  /** `f"## {sec.get('section_title','Section')}"`. */
  function SectionHeading(sec: SectionReply): string {
    H2 + sec.sectionTitle.GetOr(DefaultSectionTitle)
  }

  function TopicsLine(topics: seq<string>): string {
    "_Key topics_: " + JoinWith(topics, ", ")
  }

  /** `sec.get("key_topics")`, with an absent key read as an empty list. */
  function Topics(sec: SectionReply): seq<string> {
    sec.keyTopics.GetOr([])
  }

  /** `f"- {b}"` for each bullet, in order. */
  function Bullets(bs: seq<string>): (r: seq<string>)
    ensures |r| == |bs|
  {
    if bs == [] then [] else Bullets(bs[..|bs| - 1]) + ["- " + bs[|bs| - 1]]
  }

  /** The lines for question `n`: the question, its bullets, a blank line. */
  function Block(n: nat, qa: QA): seq<string> {
    [QuestionLine(n, qa)] + Bullets(qa.a.GetOr([])) + [""]
  }

  /** The lines for a list of questions numbered from 1 (`enumerate(..., start=1)`). */
  function Blocks(items: seq<QA>): seq<string> {
    if items == [] then [] else Blocks(items[..|items| - 1]) + Block(|items|, items[|items| - 1])
  }

  /** The lines for one section result. */
  function SectionLines(sec: SectionReply): seq<string> {
    [SectionHeading(sec)] + Blocks(sec.qa.GetOr([]))
      + (if Topics(sec) != [] then [TopicsLine(Topics(sec))] else []) + [""]
  }

  function AllSectionLines(secs: seq<SectionReply>): seq<string> {
    if secs == [] then [] else AllSectionLines(secs[..|secs| - 1]) + SectionLines(secs[|secs| - 1])
  }

  /** The two whole-chapter blocks. */
  function ExtrasLines(extras: ExtrasReply): seq<string> {
    [ComprehensionHeading] + Blocks(extras.comprehension.GetOr([]))
      + [RevisionHeading] + Blocks(extras.revision.GetOr([]))
  }

  /** The list `out` that `render_markdown` builds. */
  function Out(title: string, secs: seq<SectionReply>, extras: ExtrasReply): seq<string> {
    [Header(title)] + AllSectionLines(secs) + ExtrasLines(extras)
  }

  /** `render_markdown(title, secs, extras)`. */
  function Render(title: string, secs: seq<SectionReply>, extras: ExtrasReply): (md: string)
    ensures Stripped(md)
  {
    Strip(JoinWith(Out(title, secs, extras), "\n"))
  }

  lemma BulletsSnoc(bs: seq<string>, k: nat)
    requires k < |bs|
    ensures Bullets(bs[..k + 1]) == Bullets(bs[..k]) + ["- " + bs[k]]
  {
    assert bs[..k + 1][..k] == bs[..k];
  }

  lemma BlocksSnoc(items: seq<QA>, k: nat)
    requires k < |items|
    ensures Blocks(items[..k + 1]) == Blocks(items[..k]) + Block(k + 1, items[k])
  {
    assert items[..k + 1][..k] == items[..k];
  }

  lemma AllSectionLinesSnoc(secs: seq<SectionReply>, k: nat)
    requires k < |secs|
    ensures AllSectionLines(secs[..k + 1]) == AllSectionLines(secs[..k]) + SectionLines(secs[k])
  {
    assert secs[..k + 1][..k] == secs[..k];
  }

  method AppendBullets(out: seq<string>, bs: seq<string>) returns (r: seq<string>)
    ensures r == out + Bullets(bs)
  {
    r := out;
    for k := 0 to |bs|
      invariant r == out + Bullets(bs[..k])
    {
      BulletsSnoc(bs, k);
      r := r + ["- " + bs[k]];
    }
    assert bs[..|bs|] == bs;
  }

  /** One iteration of the question loop: the question, its bullets, a blank line. */
  method AppendBlock(out: seq<string>, n: nat, qa: QA) returns (r: seq<string>)
    ensures r == out + Block(n, qa)
  {
    r := out + [QuestionLine(n, qa)];
    r := AppendBullets(r, qa.a.GetOr([]));
    r := r + [""];
    assert r == out + ([QuestionLine(n, qa)] + Bullets(qa.a.GetOr([])) + [""]);
  }

  /** The numbered question loop, as written three times in `render_markdown`. */
  method AppendBlocks(out: seq<string>, items: seq<QA>) returns (r: seq<string>)
    ensures r == out + Blocks(items)
  {
    r := out;
    for k := 0 to |items|
      invariant r == out + Blocks(items[..k])
    {
      BlocksSnoc(items, k);
      r := AppendBlock(r, k + 1, items[k]);
      assert r == out + (Blocks(items[..k]) + Block(k + 1, items[k]));
    }
    assert items[..|items|] == items;
  }

  /** One iteration of the section loop. */
  method AppendSection(out: seq<string>, sec: SectionReply) returns (r: seq<string>)
    ensures r == out + SectionLines(sec)
  {
    r := out + [SectionHeading(sec)];
    r := AppendBlocks(r, sec.qa.GetOr([]));
    if sec.keyTopics.GetOr([]) != [] {
      r := r + [TopicsLine(sec.keyTopics.GetOr([]))];
    }
    r := r + [""];
    assert r == out + ([SectionHeading(sec)] + Blocks(sec.qa.GetOr([]))
      + (if Topics(sec) != [] then [TopicsLine(Topics(sec))] else []) + [""]);
  }

  /** The two whole-chapter blocks after the section loop. */
  method AppendExtras(out: seq<string>, extras: ExtrasReply) returns (r: seq<string>)
    ensures r == out + ExtrasLines(extras)
  {
    r := out + [ComprehensionHeading];
    r := AppendBlocks(r, extras.comprehension.GetOr([]));
    r := r + [RevisionHeading];
    r := AppendBlocks(r, extras.revision.GetOr([]));
    assert r == out + ([ComprehensionHeading] + Blocks(extras.comprehension.GetOr([]))
      + [RevisionHeading] + Blocks(extras.revision.GetOr([])));
  }

  method RenderMarkdown(title: string, perSection: seq<SectionReply>, extras: ExtrasReply) returns (md: string)
    ensures md == Render(title, perSection, extras)
  {
    var out := [Header(title)];
    for k := 0 to |perSection|
      invariant out == [Header(title)] + AllSectionLines(perSection[..k])
    {
      AllSectionLinesSnoc(perSection, k);
      out := AppendSection(out, perSection[k]);
      assert out == [Header(title)] + (AllSectionLines(perSection[..k]) + SectionLines(perSection[k]));
    }
    assert perSection[..|perSection|] == perSection;
    out := AppendExtras(out, extras);
    md := Strip(JoinWith(out, "\n"));
  }

  // ---- Structure of the line list ----

  /** The lines of `lines` that start with `tag`, in order. */
  function Tagged(lines: seq<string>, tag: string): seq<string> {
    if lines == [] then []
    else Tagged(lines[..|lines| - 1], tag) + (if StartsWith(lines[|lines| - 1], tag) then [lines[|lines| - 1]] else [])
  }

  lemma {:induction false} TaggedConcat(a: seq<string>, b: seq<string>, tag: string)
    ensures Tagged(a + b, tag) == Tagged(a, tag) + Tagged(b, tag)
    decreases |b|
  {
    if b == [] {
      assert a + b == a;
    } else {
      var b' := b[..|b| - 1];
      assert (a + b)[..|a + b| - 1] == a + b';
      TaggedConcat(a, b', tag);
    }
  }

  lemma TaggedOne(l: string, tag: string)
    ensures Tagged([l], tag) == if StartsWith(l, tag) then [l] else []
  {
    assert [l][..0] == [];
  }

  /** A tag that no bullet line can start with. */
  predicate NotBullet(tag: string) {
    |tag| > 0 && tag[0] != '-'
  }

  lemma {:induction false} TaggedBullets(bs: seq<string>, tag: string)
    requires NotBullet(tag)
    ensures Tagged(Bullets(bs), tag) == []
  {
    if bs != [] {
      TaggedBullets(bs[..|bs| - 1], tag);
      NotStartsWith("- " + bs[|bs| - 1], tag, 0);
    }
  }

  lemma QuestionLineTagged(n: nat, qa: QA)
    ensures StartsWith(QuestionLine(n, qa), "**Q")
  {
    assert QuestionLine(n, qa)[..3] == "**Q";
  }

  lemma TaggedBlock(n: nat, qa: QA, tag: string)
    requires NotBullet(tag)
    ensures Tagged(Block(n, qa), tag) == if StartsWith(QuestionLine(n, qa), tag) then [QuestionLine(n, qa)] else []
  {
    var bs := Bullets(qa.a.GetOr([]));
    TaggedConcat([QuestionLine(n, qa)] + bs, [""], tag);
    TaggedConcat([QuestionLine(n, qa)], bs, tag);
    TaggedBullets(qa.a.GetOr([]), tag);
    TaggedOne(QuestionLine(n, qa), tag);
    TaggedOne("", tag);
  }

  /** The question lines of a numbered list: one per item, numbered `1`, `2`, ... in order. */
  lemma {:induction false} BlocksQuestions(items: seq<QA>)
    ensures |Tagged(Blocks(items), "**Q")| == |items|
    ensures forall k :: 0 <= k < |items| ==> Tagged(Blocks(items), "**Q")[k] == QuestionLine(k + 1, items[k])
  {
    if items != [] {
      var init := items[..|items| - 1];
      var n := |items|;
      var last := items[n - 1];
      var q := QuestionLine(n, last);
      BlocksQuestions(init);
      var t := Tagged(Blocks(init), "**Q");
      assert Blocks(items) == Blocks(init) + Block(n, last);
      TaggedConcat(Blocks(init), Block(n, last), "**Q");
      QuestionLineTagged(n, last);
      TaggedBlock(n, last, "**Q");
      assert Tagged(Blocks(items), "**Q") == t + [q];
      forall k | 0 <= k < n
        ensures (t + [q])[k] == QuestionLine(k + 1, items[k])
      {
        if k < n - 1 {
          assert init[k] == items[k];
        }
      }
    }
  }

  /** A tag that no question line can start with either. */
  predicate NotQuestion(tag: string) {
    NotBullet(tag) && tag[0] != '*'
  }

  lemma {:induction false} BlocksUntagged(items: seq<QA>, tag: string)
    requires NotQuestion(tag)
    ensures Tagged(Blocks(items), tag) == []
  {
    if items != [] {
      var last := items[|items| - 1];
      BlocksUntagged(items[..|items| - 1], tag);
      TaggedConcat(Blocks(items[..|items| - 1]), Block(|items|, last), tag);
      TaggedBlock(|items|, last, tag);
      NotStartsWith(QuestionLine(|items|, last), tag, 0);
    }
  }

  /** `Tagged` over the four parts of a section's lines. */
  lemma TaggedSection(sec: SectionReply, tag: string)
    ensures var topics := if Topics(sec) != [] then [TopicsLine(Topics(sec))] else [];
      Tagged(SectionLines(sec), tag)
        == Tagged([SectionHeading(sec)], tag) + Tagged(Blocks(sec.qa.GetOr([])), tag) + Tagged(topics, tag) + Tagged([""], tag)
  {
    var topics := if Topics(sec) != [] then [TopicsLine(Topics(sec))] else [];
    var h := [SectionHeading(sec)];
    var b := Blocks(sec.qa.GetOr([]));
    TaggedConcat(h + b + topics, [""], tag);
    TaggedConcat(h + b, topics, tag);
    TaggedConcat(h, b, tag);
  }

  /** A section contributes exactly one `## ` entry, its heading. */
  lemma SectionHeadings(sec: SectionReply)
    ensures Tagged(SectionLines(sec), H2) == [SectionHeading(sec)]
  {
    TaggedSection(sec, H2);
    BlocksUntagged(sec.qa.GetOr([]), H2);
    TaggedOne(SectionHeading(sec), H2);
    TaggedOne("", H2);
    StartsWithConcat(H2, sec.sectionTitle.GetOr(DefaultSectionTitle));
    if Topics(sec) != [] {
      TaggedOne(TopicsLine(Topics(sec)), H2);
      NotStartsWith(TopicsLine(Topics(sec)), H2, 0);
    }
  }

  /** A section's questions are numbered from `1` afresh. */
  lemma SectionQuestions(sec: SectionReply)
    ensures Tagged(SectionLines(sec), "**Q") == Tagged(Blocks(sec.qa.GetOr([])), "**Q")
    ensures var items := sec.qa.GetOr([]);
      |Tagged(SectionLines(sec), "**Q")| == |items|
      && forall k :: 0 <= k < |items| ==> Tagged(SectionLines(sec), "**Q")[k] == QuestionLine(k + 1, items[k])
  {
    TaggedSection(sec, "**Q");
    TaggedOne(SectionHeading(sec), "**Q");
    NotStartsWith(SectionHeading(sec), "**Q", 0);
    TaggedOne("", "**Q");
    if Topics(sec) != [] {
      TaggedOne(TopicsLine(Topics(sec)), "**Q");
      NotStartsWith(TopicsLine(Topics(sec)), "**Q", 0);
    }
    BlocksQuestions(sec.qa.GetOr([]));
  }

  const TopicsTag: string := "_Key topics_: "

  /** The key-topics line is written exactly when the list is not empty. */
  lemma SectionTopics(sec: SectionReply)
    ensures Tagged(SectionLines(sec), TopicsTag) == if Topics(sec) != [] then [TopicsLine(Topics(sec))] else []
  {
    TaggedSection(sec, TopicsTag);
    TaggedOne(SectionHeading(sec), TopicsTag);
    NotStartsWith(SectionHeading(sec), TopicsTag, 0);
    TaggedOne("", TopicsTag);
    BlocksUntagged(sec.qa.GetOr([]), TopicsTag);
    if Topics(sec) != [] {
      TaggedOne(TopicsLine(Topics(sec)), TopicsTag);
      assert TopicsLine(Topics(sec))[..|TopicsTag|] == TopicsTag;
    }
  }

  /** The headings the sections get, in order. */
  function Headings(secs: seq<SectionReply>): (r: seq<string>)
    ensures |r| == |secs|
  {
    if secs == [] then [] else Headings(secs[..|secs| - 1]) + [SectionHeading(secs[|secs| - 1])]
  }

  lemma {:induction false} HeadingsAt(secs: seq<SectionReply>, i: nat)
    requires i < |secs|
    ensures Headings(secs)[i] == SectionHeading(secs[i])
    decreases |secs|
  {
    if i < |secs| - 1 {
      HeadingsAt(secs[..|secs| - 1], i);
    }
  }

  lemma {:induction false} AllSectionHeadings(secs: seq<SectionReply>)
    ensures Tagged(AllSectionLines(secs), H2) == Headings(secs)
  {
    if secs != [] {
      var init := secs[..|secs| - 1];
      AllSectionHeadings(init);
      TaggedConcat(AllSectionLines(init), SectionLines(secs[|secs| - 1]), H2);
      SectionHeadings(secs[|secs| - 1]);
    }
  }

  /** The `## ` entries of `out` are one heading per section, in order, then the two
      whole-chapter headings. */
  lemma OutHeadings(title: string, secs: seq<SectionReply>, extras: ExtrasReply)
    ensures Tagged(Out(title, secs, extras), H2) == Headings(secs) + [ComprehensionHeading, RevisionHeading]
  {
    TaggedConcat([Header(title)] + AllSectionLines(secs), ExtrasLines(extras), H2);
    TaggedConcat([Header(title)], AllSectionLines(secs), H2);
    TaggedOne(Header(title), H2);
    NotStartsWith(Header(title), H2, 1);
    AllSectionHeadings(secs);
    ExtrasHeadings(extras);
  }

  lemma ExtrasHeadings(extras: ExtrasReply)
    ensures Tagged(ExtrasLines(extras), H2) == [ComprehensionHeading, RevisionHeading]
  {
    var c := Blocks(extras.comprehension.GetOr([]));
    var r := Blocks(extras.revision.GetOr([]));
    TaggedConcat([ComprehensionHeading] + c + [RevisionHeading], r, H2);
    TaggedConcat([ComprehensionHeading] + c, [RevisionHeading], H2);
    TaggedConcat([ComprehensionHeading], c, H2);
    TaggedOne(ComprehensionHeading, H2);
    TaggedOne(RevisionHeading, H2);
    StartsWithConcat(H2, "Comprehension-Based Q&A (Whole Chapter)");
    StartsWithConcat(H2, "Extra Revision Q&A (Cross-Linking)");
    BlocksUntagged(extras.comprehension.GetOr([]), H2);
    BlocksUntagged(extras.revision.GetOr([]), H2);
    assert [ComprehensionHeading] + [] + [RevisionHeading] + [] == [ComprehensionHeading, RevisionHeading];
  }

  // ---- The rendered string ----

  /** The lines up to and including the revision heading. */
  function UpToRevision(title: string, secs: seq<SectionReply>, extras: ExtrasReply): seq<string> {
    [Header(title)] + AllSectionLines(secs) + [ComprehensionHeading] + Blocks(extras.comprehension.GetOr([]))
      + [RevisionHeading]
  }

  /** The text after the revision heading in the joined lines. */
  function RevisionTail(extras: ExtrasReply): string {
    var r := Blocks(extras.revision.GetOr([]));
    if r == [] then [] else "\n" + JoinWith(r, "\n")
  }

  lemma JoinedOut(title: string, secs: seq<SectionReply>, extras: ExtrasReply)
    ensures JoinWith(Out(title, secs, extras), "\n") == JoinWith(UpToRevision(title, secs, extras), "\n") + RevisionTail(extras)
  {
    var a := UpToRevision(title, secs, extras);
    var r := Blocks(extras.revision.GetOr([]));
    assert Out(title, secs, extras) == a + r;
    if r == [] {
      assert a + r == a;
    } else {
      JoinWithConcat(a, r, "\n");
    }
  }

  /** The joined lines up to the revision heading start with the header line and end with
      the heading's last character. */
  lemma UpToRevisionEnds(title: string, secs: seq<SectionReply>, extras: ExtrasReply)
    ensures var j := JoinWith(UpToRevision(title, secs, extras), "\n");
      StartsWith(j, Header(title) + "\n") && j[0] == '#' && j[|j| - 1] == ')'
  {
    var a := UpToRevision(title, secs, extras);
    var rest := a[1..];
    assert a == [Header(title)] + rest;
    JoinWithConcat([Header(title)], rest, "\n");
    StartsWithConcat(Header(title) + "\n", JoinWith(rest, "\n"));
    assert (Header(title) + "\n")[0] == '#';
    assert a[..|a| - 1] != [];
    assert RevisionHeading[|RevisionHeading| - 1] == ')';
  }

  /** `strip` removes only whitespace after the last revision question: the document is
      every line up to the revision heading, in full, then the revision questions with
      their trailing blank lines removed. */
  lemma RenderShape(title: string, secs: seq<SectionReply>, extras: ExtrasReply)
    ensures Render(title, secs, extras) == JoinWith(UpToRevision(title, secs, extras), "\n") + TrimRight(RevisionTail(extras))
  {
    JoinedOut(title, secs, extras);
    UpToRevisionEnds(title, secs, extras);
    StripBefore(JoinWith(UpToRevision(title, secs, extras), "\n"), RevisionTail(extras));
  }

  /** The document starts with `# <chapter title>` and a blank line. */
  lemma RenderStartsWithTitle(title: string, secs: seq<SectionReply>, extras: ExtrasReply)
    ensures StartsWith(Render(title, secs, extras), "# " + title + "\n\n")
  {
    var j := JoinWith(UpToRevision(title, secs, extras), "\n");
    RenderShape(title, secs, extras);
    UpToRevisionEnds(title, secs, extras);
    assert Header(title) + "\n" == "# " + title + "\n\n";
    StartsWithExtend(j, TrimRight(RevisionTail(extras)), Header(title) + "\n");
  }

  /** Without revision questions nothing is stripped. */
  lemma RenderWithoutRevision(title: string, secs: seq<SectionReply>, extras: ExtrasReply)
    requires extras.revision.GetOr([]) == []
    ensures Render(title, secs, extras) == JoinWith(Out(title, secs, extras), "\n")
  {
    RenderShape(title, secs, extras);
    JoinedOut(title, secs, extras);
    assert TrimRight([]) == [];
  }
}
