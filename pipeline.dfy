/** The text path of `handle_pdf` (main.py:194-220): extract and normalise the pages,
    give up when no page has text, segment, call the model once per section and once for
    the whole chapter, and render. The replies of the model are parameters: `outcome(i)`
    is the decode outcome of the call for the `i`-th section, and `extrasCall(t)` that of
    the whole-chapter call whose chapter text is `t`. */
module Pipeline {
  import opened Wrappers
  import opened Strings
  import opened PageText
  import opened TextLines
  import opened Segmenter
  import opened Budget
  import opened Replies
  import opened Render

  const DefaultChapterTitle: string := "Chapter"

  /** `any(pages)`: some page is a non-empty string. */
  predicate AnyPage(pages: seq<string>) {
    exists i :: 0 <= i < |pages| && pages[i] != []
  }

  /** `sections[0]["title"] if sections else (doc.file_name or "Chapter")`. */
  function ChapterTitle(sections: seq<Section>, fileName: Option<string>): string {
    if sections != [] then sections[0].title
    else if fileName.Some? && fileName.value != [] then fileName.value
    else DefaultChapterTitle
  }

  /** `"\n\n".join([s["text"] for s in sections])`: the chapter text of the extras call. */
  function AllText(sections: seq<Section>): string {
    JoinWith(Texts(sections), "\n\n")
  }

  /** `await asyncio.gather(*[call_openai_section(s["title"], s["text"]) for s in sections])`:
      one result per section, in section order, each depending only on its own section
      and its own reply. */
  function PerSection(tk: Tokenizer, sections: seq<Section>, outcome: nat -> Option<SectionReply>): (r: seq<SectionReply>)
    ensures |r| == |sections|
    ensures forall i :: 0 <= i < |sections| ==> r[i] == SectionResult(tk, sections[i].title, sections[i].text, outcome(i))
  {
    if sections == [] then []
    else
      var n := |sections| - 1;
      PerSection(tk, sections[..n], outcome) + [SectionResult(tk, sections[n].title, sections[n].text, outcome(n))]
  }

  /** What `handle_pdf` sends for a PDF whose pages the reader returned as `extracted`:
      `None` for the "Couldn't extract text" reply, otherwise the Markdown document. */
  function HandlePdf(tk: Tokenizer, extracted: seq<Option<string>>, fileName: Option<string>,
                     outcome: nat -> Option<SectionReply>, extrasCall: string -> Option<ExtrasReply>): Option<string>
  {
    var pages := PagesOf(extracted);
    if !AnyPage(pages) then None
    else
      var sections := Segment(pages);
      var extras := ExtrasResult(extrasCall(Clamp(tk, AllText(sections), ChapterBudget)));
      Some(Render.Render(ChapterTitle(sections, fileName), PerSection(tk, sections, outcome), extras))
  }

  /** The text path of `handle_pdf`, step by step. */
  method HandleText(tk: Tokenizer, extracted: seq<Option<string>>, fileName: Option<string>,
                    outcome: nat -> Option<SectionReply>, extrasCall: string -> Option<ExtrasReply>)
    returns (md: Option<string>)
    ensures md == HandlePdf(tk, extracted, fileName, outcome, extrasCall)
  {
    var pages := ExtractPages(extracted);
    if !AnyPage(pages) {
      return None;
    }
    var sections := PagesToSections(pages);
    var chapterTitle := ChapterTitle(sections, fileName);
    var perSection := PerSection(tk, sections, outcome);
    var allText := AllText(sections);
    var extras := ExtrasResult(extrasCall(Clamp(tk, allText, ChapterBudget)));
    var doc := RenderMarkdown(chapterTitle, perSection, extras);
    md := Some(doc);
  }

  // ---- No text ----

  /** A page normalises to the empty string exactly when it is whitespace only. */
  lemma NormalizeEmpty(text: string)
    ensures Normalize(text) == [] <==> AllSpace(text)
  {
    NormalizeKeepsContent(text);
    if Normalize(text) == [] {
      AllSpaceNonSpace(text);
    } else {
      NormalizeShape(text);
      var p := Normalize(text);
      assert !IsSpace(p[0]);
      assert NonSpace(p) != [];
      if AllSpace(text) {
        NonSpaceAllSpace(text);
      }
    }
  }

  /** `handle_pdf` gives up exactly when every page is missing or whitespace only. */
  lemma HandlePdfNoText(tk: Tokenizer, extracted: seq<Option<string>>, fileName: Option<string>,
                        outcome: nat -> Option<SectionReply>, extrasCall: string -> Option<ExtrasReply>)
    ensures HandlePdf(tk, extracted, fileName, outcome, extrasCall).None?
        <==> forall i :: 0 <= i < |extracted| ==> AllSpace(extracted[i].GetOr(""))
  {
    var pages := PagesOf(extracted);
    forall i | 0 <= i < |extracted|
      ensures pages[i] == [] <==> AllSpace(extracted[i].GetOr(""))
    {
      PagesOfAt(extracted, i);
      NormalizeEmpty(extracted[i].GetOr(""));
    }
  }

  // ---- The chapter title ----

  lemma {:induction false} JoinWithNonSpace(xs: seq<string>, sep: string)
    requires AllSpace(sep)
    ensures NonSpace(JoinWith(xs, sep)) == NonSpace(Flatten(xs))
    decreases |xs|
  {
    if xs != [] {
      var init := xs[..|xs| - 1];
      var y := xs[|xs| - 1];
      assert xs == init + [y];
      JoinWithSnoc(init, y, sep);
      FlattenSnoc(init, y);
      JoinWithNonSpace(init, sep);
      NonSpaceConcat(Flatten(init), y);
      if init != [] {
        NonSpaceAround(JoinWith(init, sep), sep, y);
      }
    }
  }

  lemma {:induction false} FlattenNonSpaceAt(xs: seq<string>, i: nat)
    requires i < |xs| && !AllSpace(xs[i])
    ensures NonSpace(Flatten(xs)) != []
    decreases |xs|
  {
    var init := xs[..|xs| - 1];
    NonSpaceConcat(Flatten(init), xs[|xs| - 1]);
    if i == |xs| - 1 {
      if NonSpace(xs[i]) == [] {
        AllSpaceNonSpace(xs[i]);
      }
    } else {
      FlattenNonSpaceAt(init, i);
    }
  }

  lemma JoinNotBlank(pages: seq<string>, i: nat)
    requires i < |pages| && !AllSpace(pages[i])
    ensures !AllSpace(Merged(pages))
  {
    FlattenNonSpaceAt(pages, i);
    JoinWithNonSpace(pages, "\n\n");
    if AllSpace(Merged(pages)) {
      NonSpaceAllSpace(Merged(pages));
    }
  }

  /** Some normalised page has text, so the joined pages are not blank. */
  lemma MergedNotBlank(extracted: seq<Option<string>>)
    requires AnyPage(PagesOf(extracted))
    ensures !AllSpace(Merged(PagesOf(extracted)))
  {
    var pages := PagesOf(extracted);
    var i :| 0 <= i < |pages| && pages[i] != [];
    PagesNormalized(extracted, i);
    assert !IsSpace(pages[i][0]);
    JoinNotBlank(pages, i);
  }

  /** Past the `any(pages)` test there is always a section, so the chapter title is the
      first section's title and the file-name default is never reached. */
  lemma ChapterTitleIsFirstSection(extracted: seq<Option<string>>, fileName: Option<string>)
    requires AnyPage(PagesOf(extracted))
    ensures var sections := Segment(PagesOf(extracted));
      sections != [] && ChapterTitle(sections, fileName) == sections[0].title
  {
    MergedNotBlank(extracted);
    SegmentEmpty(PagesOf(extracted));
  }

  // ---- The extras input ----

  /** The extras call reads the section bodies, not the raw pages: after the fallback it
      sees every non-whitespace character of the joined pages in order, after the heading
      pass only those of the lines kept as bodies (the heading lines taken as titles are
      not part of it). */
  lemma AllTextContent(pages: seq<string>)
    ensures var merged := Merged(pages);
      var hs := HeadingPass(Lines(merged));
      NonSpace(AllText(Segment(pages)))
        == if |hs| < MinSections then NonSpace(merged) else NonSpace(JoinWith(BodyLines(Lines(merged)), "\n"))
  {
    var merged := Merged(pages);
    var lines := Lines(merged);
    var hs := HeadingPass(lines);
    if |hs| < MinSections {
      assert Segment(pages) == Fallback(merged);
      FallbackAllText(merged);
    } else {
      assert Segment(pages) == hs;
      HeadingPassAllText(lines);
    }
  }

  lemma FallbackAllText(merged: string)
    ensures NonSpace(AllText(Fallback(merged))) == NonSpace(merged)
  {
    JoinWithNonSpace(Texts(Fallback(merged)), "\n\n");
    FallbackContent(merged);
  }

  /** Re-joining with blank lines instead of newlines changes whitespace only. */
  lemma RejoinContent(texts: seq<string>, body: seq<string>)
    requires JoinWith(texts, "\n") == JoinWith(body, "\n")
    ensures NonSpace(JoinWith(texts, "\n\n")) == NonSpace(JoinWith(body, "\n"))
  {
    JoinWithNonSpace(texts, "\n\n");
    JoinWithNonSpace(texts, "\n");
  }

  lemma HeadingPassAllText(lines: seq<string>)
    requires AllLines(lines)
    ensures NonSpace(AllText(HeadingPass(lines))) == NonSpace(JoinWith(BodyLines(lines), "\n"))
  {
    HeadingPassContent(lines);
    RejoinContent(Texts(HeadingPass(lines)), BodyLines(lines));
  }

  // ---- The section results ----

  /** Every section result carries a title, so no section heading falls back to
      `Section`: a section's heading is the reply's title when the reply has one, and
      otherwise the section's own title. */
  lemma SectionHeadingsOf(tk: Tokenizer, sections: seq<Section>, outcome: nat -> Option<SectionReply>, i: nat)
    requires i < |sections|
    ensures var o := outcome(i);
      Headings(PerSection(tk, sections, outcome))[i]
        == H2 + (if o.Some? && o.value.sectionTitle.Some? then o.value.sectionTitle.value else sections[i].title)
  {
    var secs := PerSection(tk, sections, outcome);
    HeadingsAt(secs, i);
  }

  /** When every section call fails to decode, every section gets the one summary
      question and nothing else. */
  lemma AllCallsFail(tk: Tokenizer, sections: seq<Section>, outcome: nat -> Option<SectionReply>)
    requires forall i :: 0 <= i < |sections| ==> outcome(i).None?
    ensures var secs := PerSection(tk, sections, outcome);
      forall i :: 0 <= i < |secs| ==>
        secs[i].qa.value == [QA(Some(SummaryQuestion), Some(["- " + Take(Clamp(tk, sections[i].text, SectionBudget), SummaryLength) + "..."]))]
        && secs[i].sectionTitle == Some(sections[i].title) && secs[i].keyTopics == Some([])
  {}
}
