/** `clamp_for_model` (main.py:85-94): keep a text whose token count is within the budget,
    otherwise decode its first `max_tokens` tokens. */
module Budget {
  import opened Strings

  /** A token encoder and decoder. The `cl100k_base` encoding is not part of this model. */
  datatype Tokenizer = Tokenizer(encode: string -> seq<nat>, decode: seq<nat> -> string)

  /** Encoding a decoded token list gives the list back. This is a hypothesis about the
      tokenizer, which the lemmas below take as a precondition. */
  ghost predicate Lossless(tk: Tokenizer) {
    forall t :: tk.encode(tk.decode(t)) == t
  }

  const SectionBudget: nat := 6000
  const ChapterBudget: nat := 12000

  /** `clamp_for_model(text, max_tokens)` for a non-negative budget. */
  function Clamp(tk: Tokenizer, text: string, maxTokens: nat): string {
    var toks := tk.encode(text);
    if |toks| <= maxTokens then text else tk.decode(toks[..maxTokens])
  }

  /** The clamp leaves a text within budget alone, and otherwise decodes the first
      `maxTokens` tokens of the text. */
  lemma ClampCases(tk: Tokenizer, text: string, maxTokens: nat)
    ensures |tk.encode(text)| <= maxTokens ==> Clamp(tk, text, maxTokens) == text
    ensures |tk.encode(text)| > maxTokens ==> Clamp(tk, text, maxTokens) == tk.decode(tk.encode(text)[..maxTokens])
  {}

  /** With a lossless tokenizer the result's tokens are the first `maxTokens` tokens of the
      text, so it is within budget. */
  lemma ClampTokens(tk: Tokenizer, text: string, maxTokens: nat)
    requires Lossless(tk)
    ensures tk.encode(Clamp(tk, text, maxTokens)) == Take(tk.encode(text), maxTokens)
    ensures |tk.encode(Clamp(tk, text, maxTokens))| <= maxTokens
  {
    var toks := tk.encode(text);
    if |toks| > maxTokens {
      assert tk.encode(tk.decode(toks[..maxTokens])) == toks[..maxTokens];
    }
  }

  /** Clamping to a budget after clamping to a larger one is clamping to the smaller. */
  lemma ClampNested(tk: Tokenizer, text: string, m: nat, n: nat)
    requires Lossless(tk) && m <= n
    ensures Clamp(tk, Clamp(tk, text, n), m) == Clamp(tk, text, m)
  {
    var toks := tk.encode(text);
    if |toks| > n {
      var t := toks[..n];
      assert tk.encode(tk.decode(t)) == t;
      if n > m {
        assert t[..m] == toks[..m];
      }
    }
  }

  /** Clamping twice to the same budget is clamping once. */
  lemma ClampIdempotent(tk: Tokenizer, text: string, maxTokens: nat)
    requires Lossless(tk)
    ensures Clamp(tk, Clamp(tk, text, maxTokens), maxTokens) == Clamp(tk, text, maxTokens)
  {
    ClampNested(tk, text, maxTokens, maxTokens);
  }
}
