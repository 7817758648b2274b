# Chat with a PDF: a verified model of the text pipeline

The application lets a user upload a PDF, turns its text into a bounded
context, and asks a hosted chat-completion model a question about it. This
project models the four pieces of `main.py` that carry logic, with the
foreign libraries (PDF parser, GPT-2 tokenizer, HTTP client) abstracted away:

- **Extraction** (`extraction.dfy`): the page loop of `extract_text_from_pdf`.
  The document is the sequence of its page texts; `ExtractText` is the loop,
  proved to return the page texts joined in page order with no separator.
- **Preprocessing** (`preprocessing.dfy`): `preprocess_text`, i.e.
  `re.sub(r'\s+', ' ', s)`, then `replace('\n', ' ')`, then `strip()`.
  Whitespace is Python's own `str.isspace` set, which is what `\s` and
  `strip()` use on `str`. The output is proved normalised (only single interior
  spaces, no newline or tab, nothing at the ends), to keep every non-whitespace
  character in order, to be idempotent, to be empty exactly for blank input,
  and to equal `" ".join(s.split())` for every input.
- **Truncation** (`truncation.dfy`): `truncate_text` with `encode`/`decode`
  passed in as arbitrary functions. What reaches `decode` is a prefix of the
  encoded tokens, no longer than the budget, and all of them when they fit.
  Python's slice semantics are modelled for every `max_tokens`, including
  negative ones. The page's budget is 8192 − 256 = 7936.
- **LLM client** (`llm_client.dfy`): the request body built by
  `get_response_from_llm` as a record with an inverse `ParseRequest`, the
  `Authorization` header, and the reply extraction
  `response_data.get("choices", [{}])[0].get("message", {}).get("content", "No response")`
  over a JSON datatype, with Python's exceptions as values.

Three points of the code's behaviour that are easy to overlook. The model
follows the code in each:

- Whitespace is not only spaces, tabs and newlines: `\s` and `strip()` use Python's full
  Unicode whitespace set, including `\v`, `\f`, `\r`, U+001C–U+001F, U+0085,
  U+00A0 and U+2000–U+200A.
- An unexpected reply shape does not always give `"No response"`. An empty
  `choices` list raises `IndexError`. Other malformed shapes raise `KeyError`,
  `TypeError` or `AttributeError`, as listed under `ReplyExceptions`. The
  caller in `app.py` catches these and shows an error.
- The extracted reply is whatever JSON value `content` holds, not always a
  string.

## Model

| member | source | states |
|---|---|---|
| `Extraction.ExtractText` | main.py:16-22 | the loop's result is the concatenation of the page texts in page order, with no separator; no pages gives `""` |
| `Extraction.ConcatSplitsAtPage` | main.py:19-21 | every page appears whole, right after the pages before it and right before the pages after it |
| `Extraction.ConcatLength` | main.py:19-21 | the extracted text is exactly as long as all pages together: nothing is added between pages |
| `Preprocessing.CollapseSpace` | main.py:27 | after `re.sub(r'\s+', ' ', …)` the only whitespace is the plain space and no two spaces are adjacent; empty exactly for empty input; starts with a space exactly when the input starts with whitespace |
| `Preprocessing.CollapseKeepsText` | main.py:27 | the substitution keeps every non-whitespace character, in order |
| `Preprocessing.CollapseFixesSingleSpaced` | main.py:27 | the substitution leaves already single-spaced text unchanged |
| `Preprocessing.ReplaceChar` | main.py:28 | `str.replace` of one character keeps the length and changes exactly the positions holding the target |
| `Preprocessing.ReplaceNewlineNoOp` | main.py:28 | after the substitution no `'\n'` is left, so the `replace('\n', ' ')` changes nothing |
| `Preprocessing.DropLeadingSpace` | main.py:29 | what `lstrip` leaves is no longer than its input and does not start with whitespace |
| `Preprocessing.DropTrailingSpace` | main.py:29 | what `rstrip` leaves is no longer than its input and does not end with whitespace |
| `Preprocessing.LeadingSpaceSplit` | main.py:29 | what `lstrip` keeps is a suffix of its input, and everything before it is whitespace |
| `Preprocessing.TrailingSpaceSplit` | main.py:29 | what `rstrip` keeps is a prefix of its input, and everything after it is whitespace |
| `Preprocessing.StripSlice` | main.py:29 | `strip` keeps one contiguous slice that neither starts nor ends with whitespace, and removes only whitespace around it |
| `Preprocessing.Strip` | main.py:29 | `strip()` returns no more than its input, with no whitespace at either end (`StripSlice` gives the rest) |
| `Preprocessing.StripNormalizes` | main.py:29 | stripping single-spaced text leaves no space at either end |
| `Preprocessing.StripKeepsText` | main.py:29 | stripping removes nothing but whitespace |
| `Preprocessing.StripFixesTrimmed` | main.py:29 | stripping a text with no whitespace at its ends changes nothing |
| `Preprocessing.PreprocessText` | main.py:26-30 | `preprocess_text`'s output is normalised, keeps the input's non-whitespace characters in order, and equals `" ".join(text.split())` |
| `Preprocessing.PreprocessNormalizes` | main.py:26-30 | the output has no whitespace except single interior spaces (no `'\n'`, no `'\t'`) and no space at either end |
| `Preprocessing.PreprocessKeepsText` | main.py:26-30 | deleting all whitespace from the input or from the output gives the same text |
| `Preprocessing.PreprocessFixedPoints` | main.py:26-30 | the texts the function leaves unchanged are exactly the normalised ones |
| `Preprocessing.PreprocessIdempotent` | main.py:26-30 | normalising twice is normalising once |
| `Preprocessing.PreprocessEmpty` | main.py:26-30 | the output is `""` exactly when the input is empty or all whitespace |
| `Preprocessing.StripCollapseJoinsWords` | main.py:27-29 | stripping the collapsed text joins the input's whitespace-separated words with single spaces |
| `Preprocessing.PreprocessJoinsWords` | main.py:26-30 | `preprocess_text(s) == " ".join(s.split())` for every `s` |
| `Truncation.SliceTo` | main.py:37 | Python's `tokens[:stop]` is a prefix whose length is `stop` clamped to the sequence, counting from the end for a negative `stop` |
| `Truncation.KeptTokens` | main.py:35-37 | the tokens kept are a prefix of the encoded tokens, at most `max_tokens` long, exactly `max_tokens` long when there were more, and all of them when they fit |
| `Truncation.TruncateText` | main.py:34-38 | the result is `decode` of a prefix of `encode(text)` no longer than the budget: exactly the first `max_tokens` tokens when there are more, and `decode(encode(text))` when the text fits |
| `Truncation.KeptTokensIdempotent` | main.py:36-37 | cutting again to the same budget changes nothing |
| `Truncation.ContextBudgetCap` | app.py:34 | the page's budget is 7936 tokens, and at most that many context tokens reach `decode` |
| `LlmClient.AuthorizationHeader` | main.py:64 | the header is `"Bearer "` followed by the key, from which the key can be read back |
| `LlmClient.BuildRequest` | main.py:46-62 | the body parses back to exactly the context and query it was built from |
| `LlmClient.RequestShape` | main.py:46-62 | two messages, the system one being the fixed prefix followed by the context and the user one being the query; model id, temperature 1, max_tokens 256, top_p 1, frequency_penalty 0 |
| `LlmClient.ParseRequestOnlyBuilt` | main.py:46-62 | every body of that shape is the one built from its context and query, so distinct inputs give distinct bodies |
| `LlmClient.Get` | main.py:71 | `dict.get` raises `AttributeError` on a non-dictionary and otherwise returns the value or the default |
| `LlmClient.First` | main.py:71 | `[0]` gives the first element of a non-empty list or the first character of a non-empty string; raises `IndexError` when empty, `KeyError` on a dictionary and `TypeError` on a number, boolean or null |
| `LlmClient.ExtractReply` | main.py:71 | the extraction returns a value exactly on the readable shapes, and that value is the first choice's message content or `"No response"` when a step is missing |
| `LlmClient.ReplyWithoutChoices` | main.py:71 | a response without `choices` gives `"No response"` |
| `LlmClient.ReplyEmptyChoices` | main.py:71 | an empty `choices` list raises `IndexError` |
| `LlmClient.ReplyFromFirstChoice` | main.py:71 | a first choice without `message`, or a message without `content`, gives `"No response"`; otherwise the content is returned |
| `LlmClient.ReplyNotAnObject` | main.py:71 | a response that is not a JSON object raises `AttributeError` |
| `LlmClient.ReplyExceptions` | main.py:71 | which exception each malformed step raises (`KeyError`, `TypeError`, `IndexError`, `AttributeError`) |
| `LlmClient.ReplyOfCompletion` | main.py:71 | for a well-formed completion the extraction returns the reply text itself |

## Left out

- PDF parsing with PyPDF2 (main.py:17, 20-21) is foreign code. The document is given as its page texts.
- The GPT-2 tokenizer (main.py:12, 35, 38) is foreign code. `encode` and `decode` are parameters, and no round-trip law is assumed.
- The HTTP POST, the `requests` session and JSON decoding (main.py:66-68) are network I/O. The parsed response is an input.
- The endpoint URL (main.py:44-45) is only used by the HTTP POST, so it is not modelled.
- JSON numbers are integers in the model. Floats behave the same in the extraction.
- JSON objects are maps, so duplicate keys are out of scope.
- The response cache from `@st.cache_data` (main.py:42) and `load_dotenv` (main.py:9) are framework caching and environment loading.
- `app.py` is out of scope except for its token budget. That covers the page layout, the API-key check, the chat-history list and error display, all of which are UI control flow.
- The `"No response"` sentinel cannot be told apart from a reply whose content is the same text. This is also true of the code.
