/** The decode halves of `call_openai_section` (main.py:96-124) and `call_openai_extra`
    (main.py:126-140). The request itself is not modelled: its outcome is an input, `None`
    when `json.loads` raises (or, for a section, when the parsed value is not an object, so
    that `setdefault` raises inside the same `try`), and otherwise the parsed object, whose
    absent keys are `None` fields. */
module Replies {
  import opened Wrappers
  import opened Strings
  import opened Budget

  /** One `{"q": ..., "a": [...]}` item. */
  datatype QA = QA(q: Option<string>, a: Option<seq<string>>)

  /** The object a section call returns. */
  datatype SectionReply = SectionReply(sectionTitle: Option<string>, qa: Option<seq<QA>>, keyTopics: Option<seq<string>>)

  /** The object the whole-chapter call returns. */
  datatype ExtrasReply = ExtrasReply(comprehension: Option<seq<QA>>, revision: Option<seq<QA>>)

  const SummaryQuestion: string := "Summary of this section?"
  const SummaryLength: nat := 300

  /** `d.setdefault(key, default)` on one key. */
  function SetDefault<T>(field: Option<T>, default: T): (r: Option<T>)
    ensures field.Some? ==> r == field
    ensures field.None? ==> r == Some(default)
  {
    Some(field.GetOr(default))
  }

  /** The minimal structure returned when the reply cannot be decoded. */
  function SummaryReply(title: string, clamped: string): SectionReply {
    SectionReply(Some(title), Some([QA(Some(SummaryQuestion), Some(["- " + Take(clamped, SummaryLength) + "..."]))]), Some([]))
  }

  /** The result of `call_openai_section(title, text)` given the outcome of decoding the
      reply. The text is clamped to 6000 tokens before it is sent and before the fallback
      quotes it. */
  function SectionResult(tk: Tokenizer, title: string, text: string, parsed: Option<SectionReply>): (r: SectionReply)
    ensures r.sectionTitle.Some? && r.qa.Some? && r.keyTopics.Some?
  {
    match parsed
    case Some(d) =>
      SectionReply(SetDefault(d.sectionTitle, title), SetDefault(d.qa, []), SetDefault(d.keyTopics, []))
    case None => SummaryReply(title, Clamp(tk, text, SectionBudget))
  }

  /** The result of `call_openai_extra(all_text)` given the outcome of decoding the reply:
      the parsed object as it is, or empty lists. */
  function ExtrasResult(parsed: Option<ExtrasReply>): (r: ExtrasReply)
    ensures parsed.Some? ==> r == parsed.value
    ensures parsed.None? ==> r.comprehension == Some([]) && r.revision == Some([])
  {
    parsed.GetOr(ExtrasReply(Some([]), Some([])))
  }

  /** On a decoded reply the keys already present are kept and only the absent ones are
      filled, with the section's title and empty lists. */
  lemma SectionResultDecoded(tk: Tokenizer, title: string, text: string, d: SectionReply)
    ensures var r := SectionResult(tk, title, text, Some(d));
      (d.sectionTitle.Some? ==> r.sectionTitle == d.sectionTitle)
      && (d.sectionTitle.None? ==> r.sectionTitle == Some(title))
      && (d.qa.Some? ==> r.qa == d.qa)
      && (d.qa.None? ==> r.qa == Some([]))
      && (d.keyTopics.Some? ==> r.keyTopics == d.keyTopics)
      && (d.keyTopics.None? ==> r.keyTopics == Some([]))
  {}

  /** A complete reply comes through unchanged. */
  lemma SectionResultComplete(tk: Tokenizer, title: string, text: string, d: SectionReply)
    requires d.sectionTitle.Some? && d.qa.Some? && d.keyTopics.Some?
    ensures SectionResult(tk, title, text, Some(d)) == d
  {}

  /** On a reply that cannot be decoded the result is one summary question whose single
      bullet quotes the first 300 characters of the clamped text. */
  lemma SectionResultFallback(tk: Tokenizer, title: string, text: string)
    ensures var r := SectionResult(tk, title, text, None);
      r.sectionTitle == Some(title) && r.keyTopics == Some([])
      && |r.qa.value| == 1 && r.qa.value[0].q == Some(SummaryQuestion)
      && r.qa.value[0].a == Some(["- " + Take(Clamp(tk, text, SectionBudget), SummaryLength) + "..."])
  {}

  /** With a lossless tokenizer the quoted text is a prefix of a text of at most 6000
      tokens, and of at most 300 characters. */
  lemma FallbackQuoteBounded(tk: Tokenizer, title: string, text: string)
    requires Lossless(tk)
    ensures var b := SectionResult(tk, title, text, None).qa.value[0].a.value[0];
      var quoted := Take(Clamp(tk, text, SectionBudget), SummaryLength);
      b == "- " + quoted + "..." && |quoted| <= SummaryLength
      && |tk.encode(Clamp(tk, text, SectionBudget))| <= SectionBudget
  {
    ClampTokens(tk, text, SectionBudget);
  }

  /** Applying the section defaults to their own result changes nothing. */
  lemma SectionResultIdempotent(tk: Tokenizer, title: string, text: string, parsed: Option<SectionReply>)
    ensures var r := SectionResult(tk, title, text, parsed);
      SectionResult(tk, title, text, Some(r)) == r
  {}
}
