/** The per-page whitespace normalisation of `extract_text_from_pdf`
    (main.py:35-40): runs of spaces and tabs become one space, runs of newlines
    one newline, and the ends are stripped. The PDF reader itself is not modelled:
    its `page.extract_text()` results arrive as an `Option` per page. */
module PageText {
  import opened Wrappers
  import opened Strings
  import opened Whitespace

  /** `re.sub(r"\n{2,}", "\n", re.sub(r"[ \t]+", " ", text)).strip()` */
  function Normalize(text: string): string {
    Strip(Squeeze(Newlines, Squeeze(Blanks, text)))
  }

  /** The shape every normalised page has. */
  predicate NormalizedPage(p: string) {
    NoChar(p, '\t') && NoPair(p, ' ') && NoPair(p, '\n') && Stripped(p)
  }

  /** A normalised page has no tab, no two spaces in a row, no two newlines in a row,
      and no whitespace at either end. */
  lemma NormalizeShape(text: string)
    ensures NormalizedPage(Normalize(text))
  {
    var a := Squeeze(Blanks, text);
    SqueezedShape(Blanks, a, '\t');
    var b := Squeeze(Newlines, a);
    SqueezeKeepsNoChar(Newlines, a, '\t');
    SqueezeKeepsNoPair(Newlines, a, ' ');
    SqueezedShape(Newlines, b, '\n');
    StripKeepsNoChar(b, '\t');
    StripKeepsNoPair(b, ' ');
    StripKeepsNoPair(b, '\n');
  }

  /** Normalisation rewrites whitespace only: the other characters survive, in order. */
  lemma NormalizeKeepsContent(text: string)
    ensures NonSpace(Normalize(text)) == NonSpace(text)
  {
    var a := Squeeze(Blanks, text);
    SqueezeKeepsContent(Blanks, text);
    SqueezeKeepsContent(Newlines, a);
    StripKeepsContent(Squeeze(Newlines, a));
  }

  /** A page in normalised shape is its own normal form; so normalising twice is
      normalising once. */
  lemma NormalizedFixpoint(p: string)
    requires NormalizedPage(p)
    ensures Normalize(p) == p
  {
    ShapeSqueezed(Blanks, p);
    SqueezeSqueezed(Blanks, p);
    ShapeSqueezed(Newlines, p);
    SqueezeSqueezed(Newlines, p);
    StripStripped(p);
  }

  lemma NormalizeIdempotent(text: string)
    ensures Normalize(Normalize(text)) == Normalize(text)
  {
    NormalizeShape(text);
    NormalizedFixpoint(Normalize(text));
  }

  /** What one page contributes: `page.extract_text() or ""`, normalised. */
  function PageText(extracted: Option<string>): string {
    Normalize(extracted.GetOr(""))
  }

  /** The page list `extract_text_from_pdf` returns, one entry per page, in page order. */
  function PagesOf(extracted: seq<Option<string>>): (pages: seq<string>)
    ensures |pages| == |extracted|
  {
    if extracted == [] then []
    else PagesOf(extracted[..|extracted| - 1]) + [PageText(extracted[|extracted| - 1])]
  }

  lemma {:induction false} PagesOfAt(extracted: seq<Option<string>>, i: nat)
    requires i < |extracted|
    ensures PagesOf(extracted)[i] == PageText(extracted[i])
    decreases |extracted|
  {
    if i < |extracted| - 1 {
      PagesOfAt(extracted[..|extracted| - 1], i);
    }
  }

  /** Every page of the list is in normalised shape. */
  lemma PagesNormalized(extracted: seq<Option<string>>, i: nat)
    requires i < |extracted|
    ensures NormalizedPage(PagesOf(extracted)[i])
  {
    PagesOfAt(extracted, i);
    NormalizeShape(extracted[i].GetOr(""));
  }

  /** The page loop of `extract_text_from_pdf`. */
  method ExtractPages(extracted: seq<Option<string>>) returns (pages: seq<string>)
    ensures pages == PagesOf(extracted)
  {
    pages := [];
    for i := 0 to |extracted|
      invariant pages == PagesOf(extracted[..i])
    {
      assert extracted[..i + 1][..i] == extracted[..i];
      var text := extracted[i].GetOr("");
      text := Normalize(text);
      pages := pages + [text];
    }
    assert extracted[..|extracted|] == extracted;
  }
}
