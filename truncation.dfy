/**
 The token-budget cap of `truncate_text` in main.py. The GPT-2 tokenizer is
 foreign code: its `encode` and `decode` are parameters here, and nothing is
 assumed about them (in particular no round trip).
 */
module Truncation {

  /** A GPT-2 token id. */
  type Token = int

  /** The budget the page passes for the PDF context: the model's 8192-token
      window minus 256 tokens kept for the reply. */
  const ContextTokenBudget: int := 8192 - 256

  /** Python's `s[:stop]`: a negative `stop` counts from the end, and a stop
      past either end is clamped. */
  function SliceTo<T>(s: seq<T>, stop: int): (r: seq<T>)
    ensures r <= s
    ensures 0 <= stop ==> |r| == if stop < |s| then stop else |s|
    ensures stop < 0 ==> |r| == if |s| + stop < 0 then 0 else |s| + stop
  {
    if stop >= |s| then s
    else if stop >= 0 then s[..stop]
    else if |s| + stop >= 0 then s[..|s| + stop]
    else []
  }

  /** The tokens `truncate_text` hands to `decode`: the encoded tokens, cut
      to `maxTokens` when there are more than that. */
  function KeptTokens(tokens: seq<Token>, maxTokens: int): (r: seq<Token>)
    ensures r <= tokens
    ensures 0 <= maxTokens ==> |r| <= maxTokens
    ensures |tokens| <= maxTokens ==> r == tokens
    ensures 0 <= maxTokens < |tokens| ==> |r| == maxTokens
    ensures maxTokens < 0 ==> |r| == if |tokens| + maxTokens < 0 then 0 else |tokens| + maxTokens
  {
    if |tokens| > maxTokens then SliceTo(tokens, maxTokens) else tokens
  }

  /** `truncate_text(text, max_tokens)`: the decoded text comes from a prefix
      of the encoded text of at most `maxTokens` tokens, and from all of it
      when it already fits. */
  function TruncateText(text: string, maxTokens: int,
                        encode: string -> seq<Token>, decode: seq<Token> -> string): (r: string)
    ensures 0 <= maxTokens ==>
      exists n :: 0 <= n <= maxTokens && n <= |encode(text)| && r == decode(encode(text)[..n])
    ensures |encode(text)| <= maxTokens ==> r == decode(encode(text))
    ensures 0 <= maxTokens < |encode(text)| ==> r == decode(encode(text)[..maxTokens])
  {
    var tokens := encode(text);
    var kept := KeptTokens(tokens, maxTokens);
    assert kept == tokens[..|kept|];
    decode(kept)
  }

  /** Truncating again to the same budget changes nothing. */
  lemma KeptTokensIdempotent(tokens: seq<Token>, maxTokens: int)
    requires 0 <= maxTokens
    ensures KeptTokens(KeptTokens(tokens, maxTokens), maxTokens) == KeptTokens(tokens, maxTokens)
  {
  }

  /** With the page's budget, at most 7936 tokens of context reach
      `decode`. */
  lemma ContextBudgetCap(tokens: seq<Token>)
    ensures ContextTokenBudget == 7936
    ensures |KeptTokens(tokens, ContextTokenBudget)| <= 7936
    ensures |tokens| <= 7936 ==> KeptTokens(tokens, ContextTokenBudget) == tokens
  {
  }
}
