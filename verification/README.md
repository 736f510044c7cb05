# Essay grading handler — a Dafny model

This project models the core of a one-endpoint Flask service, `POST /api/grade`. The service
takes an essay from the JSON request body and sends it once to a chat-completion API together
with a fixed rubric. It then turns the model's textual reply into a validated grading result:
seven required keys (`task_response`, `organization`, `language_use`, `development`,
`mechanics`, `overall_score`, `concise_rationale`), passed through unmodified.

Modules:

- `PyText` (`pytext.dfy`): Python text as a sequence of code points from 0 to 0x10FFFF,
  including lone surrogates. It also gives `str.strip()` over the exact `str.isspace()` set.
- `Json` (`json.dfy`): the values `json.loads` produces, with Python truthiness and type names.
- `Preview` (`preview.dfy`): `ascii_safe_preview`. It truncates to `limit` code points, appends
  `"..."` when something was cut, and applies the `backslashreplace` ASCII encoding. It also
  gives a decoder that undoes the escaping, as the encoder's partner.
- `BraceSpan` (`brace_span.dfy`): the repair step `re.search(r"\{.*\}", text, re.S)`. It is
  computed as "first `{` to last `}`" and proved equal to the regex's leftmost, greedy match.
- `Grade` (`grade.dfy`): the handler as a function from the request body and two oracles to
  the prompts sent upstream, the status and the JSON payload. The oracles are `complete`
  (the completion API, given the user prompt) and `loads` (`json.loads`).

The handler is a chain of early returns, so the whole model is made of functions and lemmas.
The source has no state that survives a request and no loops in the modelled code.

Three behaviours of the code that a caller might not expect, all modelled as the code has them:

- A brace span that exists but does not parse is not reported as "Model returned non-JSON
  response" (502). The second `json.loads` at backend1.py:115 runs inside the inner `try`'s
  `except json.JSONDecodeError:` clause. An exception raised in a handler is not caught by that
  same `try` statement, so the `JSONDecodeError` reaches the outer `except`. The response is then
  500 with the decoder's message (`Grade.BadSpanIsServerError`). Any other exception from either
  `json.loads` call ends the same way (`Grade.ParserCrashIsServerError`).
- A parsed value that is not a dict has no `keys()`. That gives 500 with the AttributeError
  message (`Grade.NonObjectIsServerError`).
- A request body that is truthy but not an object fails on `data.get` with 500. So does an
  essay field that is truthy but not a string, on `.strip()` (`Grade.MalformedRequestIsServerError`).
  A falsy body or essay (`null`, `0`, `""`, `[]`, `{}`) is treated as missing and gives 400
  (`Grade.MissingEssayRejected`).

## Model

| member | source | states |
|---|---|---|
| `Preview.AsciiSafePreview` | backend1.py:70-73 | The preview is all ASCII, for any input including `None`. With `limit >= 0`, its length lies between the kept length `min(len(s), limit)` and ten times that, with 3 more at both bounds when something was cut, for the `"..."`. For an ASCII input and `limit >= 0` it is exactly the truncated text, of length `min(len(s), limit)` plus 3 if something was cut. |
| `Preview.Truncate` | backend1.py:72 | With `limit >= 0`: `s` itself when `len(s) <= limit`, otherwise `s[:limit] + "..."`. With a negative limit: Python's from-the-end slice, and `"..."` always appended. |
| `Preview.SliceTo` | backend1.py:72 | Python's `s[:stop]` is a prefix of `s`. It has `min(stop, len(s))` code points for `stop >= 0`, and `max(0, len(s) + stop)` for a negative `stop`. |
| `Preview.Escape` | backend1.py:73 | `backslashreplace` output is all ASCII, at least as long as its input and at most ten times as long. It is the identity on ASCII text. |
| `Preview.EscapeChar` | backend1.py:73 | One code point escapes to itself when ASCII. Up to 0xFF it becomes `\x` and 2 digits, up to 0xFFFF `\u` and 4 digits, and above that `\U` and 8 digits. The digits are lower-case hex and read back as the code point. |
| `Preview.HexDigits` | backend1.py:73 | A code point below `16^w` is written as exactly `w` digits from `0`-`9` and `a`-`f`. They contain no backslash and read back as that code point. |
| `Preview.EscapeConcat` | backend1.py:73 | Escaping distributes over concatenation, so the `"..."` marker stays as it is. |
| `Preview.UnescapeEscape` | backend1.py:73 | On text without a backslash, decoding the escaped text gives back the original text. |
| `Preview.EscapeCollides` | backend1.py:73 | On text with a backslash the escaping is lossy: the ASCII text `\xe9` and the code point U+00E9 give the same preview. |
| `Preview.PreviewDecodes` | backend1.py:70-73 | For backslash-free text, the preview decodes back to exactly the truncated text. |
| `Preview.ShortAsciiUnchanged` | backend1.py:70-73 | An ASCII text of at most 120 code points is logged unchanged under the default limit. |
| `Preview.NothingPreviewsEmpty` | backend1.py:71 | For a non-negative limit, `None` and `""` both give the empty preview. |
| `Preview.NegativeLimitAlwaysMarks` | backend1.py:72 | With a negative limit, the preview is the escaped from-the-end slice followed by `"..."`, even for empty input. |
| `PyText.IsWhitespace` | backend1.py:83 | The code points `strip()` removes are those of `str.isspace()`. In ASCII these are tab, line feed, vertical tab, form feed, carriage return, the separators 0x1C-0x1F and space. None lies above U+3000, and no brace is whitespace. |
| `PyText.LeadEnd` | backend1.py:83 | The leading run skipped by `strip()` is all whitespace, and it stops at a non-whitespace code point or at the end. |
| `PyText.TrailStart` | backend1.py:83 | The trailing run skipped by `strip()` is all whitespace, and it stops at a non-whitespace code point or at the start. |
| `PyText.Strip` | backend1.py:83 | `strip()` returns a contiguous piece of its input with only whitespace cut at either end. The result neither starts nor ends with whitespace. It is empty if and only if the input is all whitespace. |
| `PyText.StripIdempotent` | backend1.py:83 | Stripping a stripped text changes nothing. |
| `BraceSpan.FirstFrom` | backend1.py:111 | Gives the first index at or after `from` that holds the code point, or none if no index there holds it. |
| `BraceSpan.LastBefore` | backend1.py:111 | Gives the last index below `upto` that holds the code point, or none if no index there holds it. |
| `BraceSpan.ExtractSpan` | backend1.py:111-112 | A span exists if and only if some `{` comes before some `}`. A span starts with `{`, ends with `}`, and is a contiguous piece of the text. |
| `BraceSpan.ExtractSpanIsSearch` | backend1.py:111 | The span is absent exactly when `\{.*\}` matches nowhere. Otherwise it is the text of the leftmost match, and the longest match at that start. |
| `Json.Truthy` | backend1.py:82-83 | A value is false, for the two `or` fallbacks, exactly when it is one of Python's falsy constants: `None`, `False`, `0`, `0.0`, `""`, `[]` or `{}`. |
| `Json.TypeName` | backend1.py:121-129 | The Python type name in an AttributeError message is `dict` exactly for objects and `str` exactly for strings. |
| `Json.AttributeError` | backend1.py:127-129 | The message returned with 500 for a missing method has the form `'<type>' object has no attribute '<attr>'`. The message starts and ends with a quote, the type name follows the opening quote, then the fixed text `' object has no attribute '`, and the attribute name comes just before the closing quote. |
| `Grade.EssayField` | backend1.py:83 | `data.get("essay") or ""` gives the essay field when it is present and truthy, and the empty string in every other case. |
| `Grade.EssayOf` | backend1.py:82-83 | A missing or falsy body gives an empty essay. A truthy non-object body raises the `get` AttributeError. For an object body the essay is the stripped field, or the `strip` AttributeError when the field is not a string. |
| `Grade.UserPrompt` | backend1.py:90-94 | The user prompt holds the essay verbatim at a fixed offset. |
| `Grade.ReplyText` | backend1.py:105 | A missing reply content gives the empty text. Otherwise the reply text is the content with only whitespace cut at either end, and it neither starts nor ends with whitespace. |
| `Grade.Resolve` | backend1.py:108-115 | A parsed value comes from `json.loads` of the whole reply, or of its brace span after a decode error. "Not JSON" happens exactly when the reply fails to decode and has no `{` before a `}`. A failure is an exception from `json.loads` other than a decode error, or any exception from parsing the span. |
| `Grade.CheckKeys` | backend1.py:117-129 | Status 200 if and only if the value is an object holding all seven keys, returned as it is. Status 502 with the object as `raw` if and only if some key is missing. For a non-object value, status 500 with the `keys` AttributeError. |
| `Grade.ResolveReply` | backend1.py:108-129 | The status is 200, 500 or 502. A 200 payload is an object with the seven keys, exactly as `json.loads` returned it for the reply or its span. A reply that fails to decode and has no brace span gives 502 "Model returned non-JSON response" with the reply as `raw`. A parsed value gets the key check's response. A failed parse gives 500 with the exception's message. |
| `Grade.Consult` | backend1.py:96-129 | Exactly one prompt is sent, the one for the essay. Status 200 means the completion call returned content whose reply text, or its span, parsed to the returned payload. |
| `Grade.Grade` | backend1.py:80-129 | The status is 200, 400, 500 or 502. Status 400 happens exactly when the essay is empty after stripping, and the payload is then "Essay text required". A prompt is sent, exactly once and with the essay, exactly when the essay is a non-empty string. A 200 payload is the parsed reply object with all seven keys. An AttributeError while reading the essay gives 500 with its message and no prompt sent. |
| `Grade.BlankEssayRejected` | backend1.py:82-86 | A whitespace-only essay field gives 400 "Essay text required", with no upstream call. |
| `Grade.MissingEssayRejected` | backend1.py:82-86 | A non-JSON body, a falsy body, or an object without `essay` gives 400 with no upstream call. |
| `Grade.CompleteObjectPassedThrough` | backend1.py:105-125 | A reply that parses strictly to an object holding the seven keys gives 200 with exactly that object. Extra keys are kept and no score is checked. |
| `Grade.EmbeddedSpan` | backend1.py:111 | For `pre + obj + post`, with no `{` in `pre`, no `}` in `post`, and `obj` braced, the span is `obj`. |
| `Grade.EmbeddedObjectRecovered` | backend1.py:108-125 | An object with the seven keys, wrapped in prose that does not parse, is recovered and returned with 200. |
| `Grade.NoSpanIsNonJson` | backend1.py:108-114 | A reply that does not parse and has no brace span gives 502 "Model returned non-JSON response", with the stripped reply as `raw`. |
| `Grade.BadSpanIsServerError` | backend1.py:108-129 | A brace span that fails to parse gives 500 carrying the decoder's message, not 502. |
| `Grade.ParserCrashIsServerError` | backend1.py:108-129 | An exception other than a decode error from `json.loads` on the reply, or any exception from `json.loads` on the span, gives 500 with its message. |
| `Grade.MalformedRequestIsServerError` | backend1.py:80-129 | A truthy body that is not an object gives 500 with the `get` AttributeError. A truthy essay that is not a string gives 500 with the `strip` AttributeError. In both cases no prompt is sent. |
| `Grade.MissingKeysReported` | backend1.py:108-123 | An object lacking a required key, parsed from the whole reply or from its brace span, gives 502 "Missing keys in model output", with the object as `raw`. |
| `Grade.NonObjectIsServerError` | backend1.py:108-129 | A value that is not an object, parsed from the whole reply or from its brace span, gives 500 with the `keys` AttributeError message. |
| `Grade.UpstreamFailureIsServerError` | backend1.py:96-129 | An exception from the completion call gives 500 with its message, after the one prompt was sent. |

## Left out

- The OpenAI client and `chat.completions.create` (backend1.py:54, 96-103) are a network call. They are the `complete` parameter, given the user prompt. The rubric text (backend1.py:60-68), the model name and the temperature are fixed arguments and are not modelled.
- `json.loads` and `request.get_json` (backend1.py:82, 109, 115) are library JSON parsing. `json.loads` is the `loads` parameter. The body is an input, `None` when it was not JSON. The JSON grammar itself is not modelled.
- Floating-point JSON numbers are modelled as reals. NaN, Infinity and float rounding matter only for truthiness of a body or essay that is a number, and they are not modelled.
- Flask routing, `jsonify`, CORS and the `GET /` static page (backend1.py:57-58, 75-77, 79) are HTTP plumbing. A response is a status and a JSON value. A dict's key order is not modelled, since objects are maps.
- The logging setup, `SafeStreamHandler.emit` and the handler removal loops (backend1.py:12-46), and the `logger` calls in `grade`, are output only. The preview they print is modelled; where it is written is not.
- The `OPENAI_API_KEY` check and the server start (backend1.py:49-52, 131-133) are process start-up.
- Exceptions other than those named above are not modelled: an exception from `jsonify`, from logging, or from the runtime itself. `str(e)` of a completion-API exception is part of that oracle's answer.
- `Preview.AsciiSafePreview` takes only text or `None`. Every caller passes a `str`, so a truthy non-text argument, which would raise, is not modelled.
