# Chapter PDF to Q&A Markdown: the text pipeline

This project models the text pipeline of a Telegram bot that turns a textbook chapter PDF into a Markdown
study pack. The pipeline is defined in `main.py` and repeated line for line in
`telegram-gpt5-pdf-qa-bot/main.py`, so one model covers both files. The two copies differ only inside
comments and string literals. The pipeline has these steps:

- **Page normalisation** (`PageText`, `Whitespace`). Runs of spaces and tabs become one space. Runs of
  newlines become one newline. Both ends of each page are stripped.
- **Sectioning** (`Heading`, `TextLines`, `Segmenter`). The pages are joined with blank lines. The joined
  text is cut into stripped, non-blank lines. A line-by-line state machine (current title, line buffer,
  section list) starts a new section at a heading line. It does so only when the buffer holds more than
  300 lines or nothing has been emitted yet. Sections with a blank body are dropped. Titles are
  whitespace-collapsed, title-cased and cut to 120 characters. A title can be lost. When a heading
  is accepted while the buffer is empty, the title still pending is dropped: it is `Introduction`
  before a heading on the first line, or the earlier of two headings accepted one after the other.
  A heading accepted as the last line is lost too, because its buffer stays empty.
- **Fallback.** When fewer than 3 sections come out, the joined pages are instead cut into
  8000-character parts. Blank parts are skipped, and the kept parts are titled `Part 1`, `Part 2`, … with
  no gaps.
- **Token budget** (`Budget`). A text is kept whole if it fits the budget. Otherwise it is cut to its
  first `max_tokens` tokens. The tokenizer is an abstract encode/decode pair, and `Lossless` states the
  round-trip hypothesis.
- **Reply decoding** (`Replies`). A decoded section reply has its missing keys filled in. An undecodable
  one becomes a one-question summary built from the clamped text. An undecodable chapter reply becomes
  empty lists.
- **Rendering** (`Render`). The document is a title line, one `##` block per section with its questions
  numbered from 1, two extras blocks, and a final `strip`.
- **The `handle_pdf` glue** (`Pipeline`):
  - it gives up when no page has text;
  - the chapter title is taken from the first section, with the file name as a fallback;
  - it makes one call per section, in order;
  - the extras call receives the section bodies joined with blank lines.

Loops that update state in the source are modelled as methods with loop invariants:

- the page loop: `ExtractPages`;
- the heading pass: `ScanLines`;
- the chunking loop: `CutParts`;
- the `out` list builder: `RenderMarkdown` and its helper methods.

Each method is proved equal to a recursive specification function, and the properties are proved as
lemmas about those functions.

Conventions:

- Strings are `seq<char>`.
- `str.isspace()`, `\s`, `strip()` and `splitlines()` are modelled on their character classes (Unicode
  whitespace and line breaks, listed in `Strings.IsSpace` and `Strings.IsLineBreak`).
- `\d` is restricted to ASCII digits.
- `title()` is restricted to ASCII letters.

## Model

| member | source | states |
|---|---|---|
| Strings.Strip | main.py:39 | `s.strip()` is empty exactly when `s` is all whitespace, and the result has no whitespace at either end |
| Strings.StripKeepsContent | main.py:39 | `strip` removes only whitespace: the non-whitespace characters survive in order |
| Strings.Take | main.py:58 | `s[:n]` is the prefix of `s` of length `min(n, len(s))` |
| Strings.ParseNatToString | telegram-gpt5-pdf-qa-bot/main.py:82 | the decimal numeral written into `Part {n}` reads back as `n` |
| Strings.NatToStringInjective | main.py:82 | different part numbers give different numerals |
| Whitespace.Squeeze | main.py:38-39 | `re.sub(r"[ \t]+", " ")` and `re.sub(r"\n{2,}", "\n")`: the result is empty iff the input is, its first character is the run's replacement when the input starts with a run character, and it contains no run (the exact rewrite is `SqueezeIsDedup`) |
| Whitespace.SqueezeIsDedup | main.py:38-39 | the rewrite equals an independent two-step one: mark every class character as the replacement, then collapse adjacent replacements; so each maximal run becomes exactly one replacement character in its place, and nothing else changes |
| Whitespace.SqueezeKeepsOutside | main.py:38-39 | every character outside the class (the newlines under `[ \t]+`, the spaces and tabs under `\n{2,}`) survives, in order |
| Whitespace.SqueezeSqueezed | main.py:38-39 | a string without runs is left unchanged by the rewrite |
| Whitespace.SqueezeKeepsContent | main.py:38-39 | the rewrite keeps every non-whitespace character, in order |
| Whitespace.SqueezedShape | main.py:38 | after the rewrite no two replacement characters are adjacent, and no other run character (a tab) is left |
| Whitespace.ShapeSqueezed | main.py:38-39 | conversely, a string with only replacement characters from the class and no two adjacent ones is run-free |
| Whitespace.SqueezeKeepsNoChar | main.py:39 | collapsing newlines introduces no tab |
| Whitespace.SqueezeKeepsNoPair | main.py:39 | collapsing newlines introduces no pair of spaces |
| Whitespace.StripKeepsNoChar | main.py:39 | stripping introduces no character that was absent |
| Whitespace.StripKeepsNoPair | main.py:39 | stripping introduces no adjacent pair that was absent |
| PageText.NormalizeShape | main.py:38-39 | a normalised page has no tab, no two spaces in a row, no two newlines in a row, and no whitespace at either end |
| PageText.NormalizeKeepsContent | main.py:38-39 | normalising removes only whitespace |
| PageText.NormalizedFixpoint | main.py:38-39 | a page already in normalised shape is its own normal form |
| PageText.NormalizeIdempotent | main.py:38-39 | normalising twice equals normalising once |
| PageText.PagesOfAt | main.py:35-40 | page `i` of the result is the normalised text of the `i`-th extracted page, or of `""` when extraction gave none |
| PageText.PagesNormalized | main.py:31-41 | every page `extract_text_from_pdf` returns is in normalised shape |
| PageText.ExtractPages | main.py:34-41 | the page loop returns `PagesOf(extracted)`: one normalised entry per page, in page order |
| Heading.SkipSpace | main.py:61 | the greedy `\s+` scan stops at the first non-whitespace character, and everything it skips is whitespace |
| Heading.SkipDigits | main.py:61 | the greedy `\d+` scan stops at the first non-digit, and everything it skips is a digit |
| Heading.NumberedTailIsRegex | main.py:60-62 | the scan used for `Chapter\s+\d+[:.\-\s].+` and `Section\s+\d+[:.\-\s].+` accepts exactly the lines that have some split into whitespace, digits, a separator and at least one more character |
| Heading.DottedNumberIsRegex | main.py:60-62 | the scan used for `\d+\.\s+.+` accepts exactly the lines that have some split into digits, a dot, whitespace and at least one more character |
| TextLines.SplitLines | main.py:49 | the model's split gives at least one piece and no piece holds a line break (the round trip is `SplitLinesJoin`) |
| TextLines.SplitLinesJoin | main.py:49 | the pieces joined by newlines are the text with every line break read as a newline, so the pieces are the maximal break-free runs, inner spaces kept |
| TextLines.SplitLinesKeepsContent | main.py:49 | splitting at line breaks loses only whitespace |
| TextLines.NonBlank | main.py:49 | every line kept by `[ln.strip() for ln in … if ln.strip()]` is non-empty, stripped and free of newlines (which pieces are kept: `NonBlankIsKeep`, `NonBlankAt`) |
| TextLines.Lines | main.py:48-49 | the line list holds only non-empty, stripped, newline-free lines (each is one piece, stripped: `LineFromPiece`, `PieceGivesLine`) |
| TextLines.NonBlankIsKeep | main.py:49 | `[ln.strip() for ln in pieces if ln.strip()]` is the list of stripped pieces with the empty ones removed |
| TextLines.OriginsFilter | main.py:49 | the indices the filter keeps are exactly those of the non-empty entries, in increasing order |
| TextLines.NonBlankAt | main.py:49 | line `i` is the stripped piece number `Origins(StripAll(pieces))[i]` |
| TextLines.LineFromPiece | main.py:48-49 | each line of the joined pages is one `splitlines()` piece without its outer whitespace, the pieces taken in increasing order |
| TextLines.PieceGivesLine | main.py:48-49 | every `splitlines()` piece that is not blank gives a line |
| TextLines.NonBlankKeepsContent | main.py:49 | stripping and dropping blank lines loses only whitespace |
| TextLines.LinesKeepContent | main.py:48-49 | the line list holds every non-whitespace character of the joined pages, in order |
| TextLines.TitleCaseAt | main.py:68 | `title()` upper-cases a letter that follows a non-letter (or starts the string), lower-cases a letter that follows a letter, and keeps everything else |
| TextLines.CleanTitle | main.py:68 | `re.sub(r"\s+", " ", ln).title()` is as long as the whitespace-collapsed line |
| TextLines.CleanTitleSpaces | main.py:68 | the only whitespace left in a new section title is single spaces |
| Segmenter.ScanLines | main.py:51-72 | the heading loop, final `push` included, returns `HeadingPass(lines)` |
| Segmenter.CutParts | main.py:76-82 | the chunking loop computes the labelled, non-blank pieces of the joined pages |
| Segmenter.PagesToSections | main.py:43-83 | `pages_to_sections` is the heading pass, replaced by the fallback when it yields fewer than 3 sections |
| Segmenter.PushWellFormed | main.py:55-58 | `push` adds only sections with a non-empty, stripped body and a title of at most 120 characters |
| Segmenter.RunWellFormed | main.py:64-71 | every section the loop emits is well formed |
| Segmenter.HeadingPassWellFormed | telegram-gpt5-pdf-qa-bot/main.py:53-72 | every section of the heading pass has a non-empty stripped body and a title of at most 120 characters |
| Segmenter.LinesPartitioned | main.py:64-72 | the loop's test sorts each line either into the body lines or into the title lines (the counts add up), and every title line is a heading; whether a title line's title reaches the output is `HeadingPassTitles` |
| Segmenter.HeadsAt | main.py:53-68 | the candidate titles are `Introduction` followed by each title line after the `\s+` collapse and `title()`, in order |
| Segmenter.RunTitles | main.py:53-69 | the loop's current title is the last candidate, and every section it has emitted is titled, in order, by a distinct earlier candidate cut to 120 characters |
| Segmenter.HeadingPassTitles | main.py:55-72 | the heading-pass section titles form a subsequence of the candidate titles cut to 120 characters: in candidate order, no candidate used twice (which candidate titles which section is `HeadingPassSectionAt`) |
| Segmenter.HeadingPassTitleAt | main.py:55-72 | each heading-pass section is titled `Introduction` or a cleaned title line, cut to 120 characters |
| Segmenter.RunGroups | main.py:53-71 | the loop state holds the sections of every group but the last, and the last group's lines and head as buffer and title |
| Segmenter.HeadingPassGroups | main.py:53-72 | the heading pass emits the groups in order: each group, a candidate title with the lines read until the next opening line, is pushed once |
| Segmenter.GroupHeads | main.py:53-68 | one group per candidate title, headed by it: `Introduction`, then each title line cleaned |
| Segmenter.GroupBodies | main.py:64-71 | the group bodies, one after another, are exactly the lines not taken as titles, in input order |
| Segmenter.EmitAt | main.py:55-58 | pushing the groups gives one section per group with a non-blank joined body: its head cut to 120 characters and that body |
| Segmenter.HeadingPassSectionAt | main.py:53-72 | heading-pass section `k` pairs a title with its own lines: it is one group's head cut to 120 characters over that group's joined, stripped lines, and the groups used are increasing |
| Segmenter.GroupGivesSection | main.py:56-58 | every group whose lines are not blank gives a section |
| Segmenter.HeadingOverEmptyBuffer | main.py:65-69 | a heading accepted while the buffer is empty emits nothing, and its title replaces the pending one |
| Segmenter.LastHeadingDropped | main.py:65-72 | a heading accepted as the last line leaves the heading pass unchanged, so its title never appears |
| Segmenter.FirstOfTwoHeadingsLost | main.py:64-72 | two headings at the start followed by a body line give one section, titled by the second heading |
| Segmenter.ChapterHeadingReplaced | main.py:64-72 | `CHAPTER ONE`, `INTRODUCTION`, `Some text.` give one section titled by `INTRODUCTION`; the chapter heading is lost |
| Segmenter.RunContent | main.py:64-72 | the sections emitted so far, followed by the open buffer, join to the body lines read so far |
| Segmenter.HeadingPassContent | main.py:64-72 | the section bodies joined by newlines are exactly the non-title lines joined by newlines, in input order |
| Segmenter.StepAppends | main.py:70-71 | a line that is not a heading is appended to the buffer and changes nothing else |
| Segmenter.RunNoHeading | main.py:64-72 | without any heading line, the loop emits nothing and buffers every line under `Introduction` |
| Segmenter.NoHeadingFallback | main.py:72-75 | without any heading line, the heading pass yields at most one section, so the fallback is taken |
| Segmenter.FirstHeadingEmitsNothing | telegram-gpt5-pdf-qa-bot/main.py:55-58 | a heading on the first line emits nothing (the buffer is empty) and becomes the current title |
| Segmenter.RunLong | main.py:65 | every section the loop closes, except the first, held at least 300 newlines, i.e. more than 300 lines |
| Segmenter.HeadingPassLong | main.py:65-72 | every heading-pass section other than the first and the last has more than 300 lines |
| Segmenter.PiecesFromAt | main.py:79-80 | piece `k` is `merged[8000k : 8000(k+1)]`, and it starts inside the text |
| Segmenter.PiecesCover | main.py:79-80 | the pieces are non-empty, each at most 8000 characters, and concatenate to the joined text |
| Segmenter.KeptFilters | main.py:81 | a piece is kept exactly when it is not whitespace only |
| Segmenter.KeptContent | main.py:81 | skipping blank pieces loses only whitespace |
| Segmenter.LabelAt | main.py:82 | the `j`-th kept piece is titled `Part {j+1}` |
| Segmenter.TextsLabel | main.py:82 | labelling keeps the kept pieces as bodies, in order |
| Segmenter.PartTitleInjective | main.py:82 | no two parts share a title |
| Segmenter.FallbackShape | telegram-gpt5-pdf-qa-bot/main.py:75-82 | fallback section `j` is titled `Part {j+1}`, and its body is a non-blank piece of the joined pages of 1 to 8000 characters |
| Segmenter.FallbackContent | main.py:75-82 | the fallback bodies hold every non-whitespace character of the joined pages, in order |
| Segmenter.FallbackEmpty | main.py:75-82 | the fallback yields no part exactly when the joined pages are whitespace only |
| Segmenter.BlankHeadingPass | main.py:49-72 | whitespace-only text has no lines, so the heading pass yields no section |
| Segmenter.HeadingPassNonBlank | main.py:56-58 | every heading-pass section has a non-blank body |
| Segmenter.SegmentEmpty | main.py:43-83 | `pages_to_sections` returns no section exactly when the joined pages are whitespace only |
| Segmenter.SegmentNonBlank | main.py:56-58 | every section returned has a non-blank body |
| Budget.ClampCases | telegram-gpt5-pdf-qa-bot/main.py:91-94 | within budget the text is returned unchanged; over budget the result is the decode of the first `max_tokens` tokens |
| Budget.ClampTokens | main.py:89-94 | with a lossless tokenizer the result encodes to the first `max_tokens` tokens of the text, so at most `max_tokens` tokens |
| Budget.ClampNested | main.py:100 | with a lossless tokenizer, clamping to `n` and then to `m <= n` is clamping to `m` |
| Budget.ClampIdempotent | main.py:89-94 | with a lossless tokenizer, clamping twice equals clamping once |
| Replies.SetDefault | main.py:114-116 | `setdefault` keeps a present value and fills an absent one with the default |
| Replies.SectionResult | main.py:111-124 | the section result always has a title, a question list and a topic list |
| Replies.ExtrasResult | main.py:137-140 | a decoded chapter reply is returned as it is, with no backfill; an undecodable one becomes empty `comprehension` and `revision` |
| Replies.SectionResultDecoded | main.py:111-117 | a decoded reply keeps every key it has and fills only the missing ones, with the section title, `[]` and `[]` |
| Replies.SectionResultComplete | main.py:113-117 | a reply that has all three keys comes through unchanged |
| Replies.SectionResultFallback | main.py:100-124 | an undecodable reply becomes the section title, one question `Summary of this section?` whose single bullet is `"- " + clamped[:300] + "..."`, and no key topics |
| Replies.FallbackQuoteBounded | main.py:100-122 | the quoted text is at most 300 characters, taken from a text of at most 6000 tokens (lossless tokenizer) |
| Replies.SectionResultIdempotent | main.py:114-116 | filling the defaults of a result again changes nothing |
| Render.RenderMarkdown | main.py:142-171 | the `out` builder loops return `Render(title, secs, extras)` |
| Render.Render | main.py:171 | the returned document has no whitespace at either end |
| Render.TaggedBullets | main.py:149-150 | bullet lines never start like a question or a heading |
| Render.BlocksQuestions | main.py:146-151 | the question lines of a block list are one per item, numbered `Q1`, `Q2`, … in item order |
| Render.SectionHeadings | main.py:145 | a section block has exactly one `## ` entry in `out`, its heading |
| Render.SectionQuestions | main.py:146-147 | a section's questions are numbered afresh from `Q1`, one per item of its `qa` list |
| Render.SectionTopics | main.py:152-153 | the `_Key topics_` line appears, once, exactly when the topic list is present and non-empty |
| Render.HeadingsAt | main.py:145 | the `i`-th section heading is `## ` followed by the section title, or `Section` when it is missing |
| Render.AllSectionHeadings | main.py:144-145 | the `## ` entries of the section part of `out` are the section headings, one per section, in input order |
| Render.ExtrasHeadings | main.py:157-169 | the extras part of `out` has exactly two `## ` entries: the comprehension heading, then the revision heading |
| Render.OutHeadings | main.py:143-169 | the `## ` entries of the whole `out` list are the section headings in order, then the two extras headings (entries, not lines of the rendered string: a reply string holding a newline spans several lines) |
| Render.RenderShape | main.py:171 | the final `strip` removes only trailing whitespace after the revision questions: every line up to the revision heading survives in full |
| Render.RenderStartsWithTitle | main.py:143-171 | the document starts with `# <chapter title>` followed by a blank line |
| Render.RenderWithoutRevision | main.py:164-171 | without revision questions the document is the joined lines exactly |
| Pipeline.PerSection | telegram-gpt5-pdf-qa-bot/main.py:212-213 | one result per section, in section order, each computed from its own section and its own reply alone |
| Pipeline.HandleText | main.py:194-220 | the text path of `handle_pdf` returns `HandlePdf(...)`: no document when no page has text, otherwise the rendered document |
| Pipeline.NormalizeEmpty | main.py:38-39 | a page normalises to `""` exactly when it is whitespace only |
| Pipeline.HandlePdfNoText | main.py:204-206 | `handle_pdf` gives up exactly when every page is missing or whitespace only |
| Pipeline.MergedNotBlank | main.py:203-208 | once some page has text, the joined pages are not blank |
| Pipeline.ChapterTitleIsFirstSection | telegram-gpt5-pdf-qa-bot/main.py:209 | past the `any(pages)` test there is always a section, so the chapter title is the first section's title and the file-name default is dead |
| Pipeline.AllTextContent | telegram-gpt5-pdf-qa-bot/main.py:216 | the extras input is built from the section bodies, not the raw pages: after the fallback it holds every non-whitespace character of the pages; after the heading pass it holds only those of the body lines, without the title lines |
| Pipeline.FallbackAllText | main.py:75-82 | after the fallback the extras input holds every non-whitespace character of the joined pages, in order |
| Pipeline.HeadingPassAllText | main.py:64-72 | after the heading pass the extras input holds the non-whitespace characters of the body lines, in order |
| Pipeline.SectionHeadingsOf | main.py:145-147 | section `i` is headed by the reply's own title when it has one, and by the section's title otherwise; the `Section` default never shows |
| Pipeline.AllCallsFail | main.py:118-124 | when no section reply decodes, every section gets exactly the one summary question, its own title and no key topics |

## Left out

- Telegram handlers (`start`, `help_cmd`, `main`) and the mime-type check and download in `handle_pdf`
  are message I/O and framework wiring, so they are not modelled.
- `PdfReader` is a foreign library. The text of each page is an input of type `Option<string>`, where
  `None` stands for `extract_text()` returning nothing.
- The network requests `client.responses.create` are not modelled. Each call's decode outcome is an
  input: `outcome(i)` for the `i`-th section and `extrasCall(text)` for the chapter.
  - An exception raised by the request itself lies outside the `try` in the source and would end
    `handle_pdf`. The model does not represent that path.
  - The prompt strings built around the clamped text are not modelled.
- `asyncio.gather` concurrency is modelled as a sequential, order-preserving map; the results are
  independent of each other.
- The tokenizer `cl100k_base` is an abstract `encode`/`decode` pair; `Lossless` is the round-trip
  hypothesis the clamp lemmas assume.
- Unicode `\d` is restricted to ASCII digits, and `str.title()` cases only ASCII letters. Other cased
  characters are kept unchanged.
- JSON decoding is not modelled. Only the outcome is: a parsed object, or `None` when `json.loads` raises.
  - For a section, a parsed value that is not an object makes `setdefault` raise inside the same `try`,
    so it is the same as `None`.
  - For the chapter reply, a parsed non-object would make rendering fail. JSON `null` values and values
    of the wrong type are not modelled; fields are `Option` values of the expected types.
- `setdefault` mutates the parsed dictionary in place. The model computes the updated dictionary as a
  new value.
- Environment and configuration loading, the global client and `MAX_QA_PER_SECTION` only feed the
  prompt, so they are not modelled.
- `prompts.py` holds prompt constants whose bullet and length limits are instructions to the language
  model. The code does not enforce them, so the model states no such property.
- Writing the Markdown file and uploading it are I/O, so they are not modelled.
- Segmenter.HeadingPassTitles: states only that the section titles come, in order, from distinct
  candidate titles. Which title goes with which lines is `HeadingPassSectionAt`. Not every candidate
  titles a section, and the source itself causes this. It drops the title still pending when a
  heading is accepted over an empty buffer: `Introduction` before a heading on the first line, or
  the earlier of two headings accepted one after the other. It also drops a heading accepted as the
  last line (`HeadingOverEmptyBuffer`, `LastHeadingDropped`, `ChapterHeadingReplaced`).
- Budget.Clamp: `max_tokens` is a natural number. A negative budget, which Python would slice from
  the end, is not modelled.
- Strings.IsSpace lists the characters `str.isspace()` accepts. `splitlines()` splits at the
  line-break characters in `Strings.IsLineBreak`.
- TextLines.SplitLines: the model gives pieces that Python's `splitlines()` does not. `""` gives
  one empty piece where Python gives none. A final line break gives an empty last piece, and
  `\r\n` gives an empty piece between its two characters. These extra pieces are empty, and
  `if ln.strip()` discards them, so `Lines` is the source's line list exactly.
- Render.RenderMarkdown: the nested append loops are split into one helper method per loop level.
