# Event content generation: description cleaning and image acquisition

This project models the deterministic core of `AIGeneratorService` in
`backend/app/services/ai_generator.py`. It covers what happens to the event
content after the language model has produced it:

- **The description cleaner** (`_clean_description`). It applies
  `re.sub(r'^#+\s.*$', '', text, flags=re.MULTILINE)` and then `strip()`.
- **The image request.** The image prompt is cut to 200 characters and given
  the suffix ", cinematic lighting". It is then percent-encoded by
  `urllib.parse.quote`: UTF-8 bytes, `%XX` in upper-case hex, with the
  unreserved characters and `/` left as they are. The encoded prompt is put
  into the Pollinations URL, together with the seed and the optional API key.
- **The Turbo retry URL.** It is `url.replace("model=flux", "model=turbo")`.
- **The download procedure.** It makes at most two requests. A response
  counts as a success if its status is 200 and "image" occurs in its
  Content-Type. Any exception inside the inner `try` ends the procedure
  with an empty `imageUrl`.
- **The result assembly.** The parsed JSON object gets:
  - its description cleaned, but only if the key is present;
  - an `imageUrl` on every path;
  - every other key left as it was.

  An exception from the text step is raised again.

The model is written in Dafny.

| file | module | contents |
|---|---|---|
| `wrappers.dfy` | `Wrappers` | `Option` and `Result` |
| `strings.dfy` | `Strings` | `strip`, `in`, `replace` and `str(int)` as the code uses them, and `split('\n')`/`'\n'.join`, in which the line-level reference of the substitution is stated |
| `encoding.dfy` | `Encoding` | UTF-8 encoding and decoding; `urllib.parse.quote` and a percent-decoder |
| `cleaner.dfy` | `Cleaner` | the substitution as a scanner; its line-by-line reference; the cleaner |
| `image_request.dfy` | `ImageRequest` | the enhanced prompt, the request URL and the retry URL |
| `image_fetch.dfy` | `ImageFetch` | the download-and-retry procedure as a method |
| `event_generator.dfy` | `EventGenerator` | the JSON result and its post-processing as methods |

The regular expression is modelled directly, in `Cleaner.Sub`. It scans left
to right, matches only where `^` holds, and resumes after each match as
`re.sub` does. The model then proves that the scan equals a line-level
reference, `StripLines`, once the text is split into lines:
- a header line loses its text and keeps its line break;
- a line made only of `#` loses its line break and swallows the next line,
  because `\s` matches the line break;
- every other line is kept as it is.

The text step, the network, the file system and the randomness are
parameters (a request's 30-second time-out appears as a `Raised` attempt):
- the parsed result or the exception of the text step;
- what each request returned;
- the uuid drawn for the file name;
- whether writing the file completed;
- the seed;
- the POLLINATIONS_API_KEY value.

Five behaviours of the code differ from what a reader might expect of it.
The model follows the code in each case:
- **The cleaner is not idempotent.** A header stripper is usually expected
  to give the same text when applied twice; this one does not.
  `clean("  # T\nBody")` is `"# T\nBody"`: the indented header survives the
  substitution, and `strip()` then moves it to the start. Cleaning that once
  more gives `"Body"` (`Cleaner.CleanNotIdempotent`). The substitution alone
  is idempotent (`Cleaner.SubIdempotent`).
- **The retry reuses the seed.** One seed is drawn at line 77, and the
  retry sends the same seed with the Turbo model
  (`ImageRequest.RetryUrlIsTurbo`).
- **A `/` in the prompt stays a path separator.** `quote` keeps `/` by
  default, so a prompt holding `/` adds path segments to the URL
  (`Encoding.QuoteSafeText`, `Encoding.QuoteExamples`). The prompt still
  cannot reach the query (`ImageRequest.PromptStaysInPath`).
- **There is no retry after an exception.** An exception from the first
  request goes straight to the `except` at line 130; only a response that
  was turned down leads to the Turbo request (`ImageFetch.FetchImage`).
- **More than text-step failures reach the caller.** A description or image
  prompt that is not a string raises inside the outer `try`, and line 140
  raises it again (`EventGenerator.GenerateEventContent`). For a prompt this
  is a TypeError, or a KeyError for a JSON object on Python 3.12 and later.

## Model

| member | source | states |
|---|---|---|
| Strings.StripSlice | backend/app/services/ai_generator.py:146 | `strip()` keeps one contiguous slice of its input whose first and last characters are not whitespace, and everything it removes on either side is whitespace |
| Strings.Strip | backend/app/services/ai_generator.py:146 | `text.strip()`, as `TrimEnd(TrimStart(s))`; its properties are stated by `Strings.StripSlice` (one contiguous slice, non-space ends, only whitespace removed) and `Cleaner.CleanShape` |
| Strings.UnlinesLines | backend/app/services/ai_generator.py:145 | joining the lines of a text with line breaks gives back the text |
| Strings.LinesUnlines | backend/app/services/ai_generator.py:145 | splitting lines that hold no line break, once joined, gives back those lines |
| Strings.LinesNoBreak | backend/app/services/ai_generator.py:145 | no line of a text holds a line break |
| Strings.ReplaceAll | backend/app/services/ai_generator.py:116 | `str.replace`, left to right and without overlap; its properties are stated by `Strings.ReplaceAllLeftmost`, `Strings.ReplaceAllSkip` and `Strings.ReplaceAllAbsent` |
| Strings.ReplaceAllLeftmost | backend/app/services/ai_generator.py:116 | `replace` rewrites the leftmost occurrence of the pattern and carries on after it |
| Strings.ReplaceAllSkip | backend/app/services/ai_generator.py:116 | `replace` copies text in which no occurrence starts unchanged |
| Strings.ReplaceAllAbsent | backend/app/services/ai_generator.py:116 | `replace` leaves a text that does not contain the pattern unchanged |
| Strings.Decimal | backend/app/services/ai_generator.py:88 | the seed in the URL is printed as a non-empty run of decimal digits |
| Strings.DecimalRoundTrip | backend/app/services/ai_generator.py:88 | the printed digits read back as the seed |
| Encoding.Utf8RoundTrip | backend/app/services/ai_generator.py:81 | the UTF-8 bytes that `quote` encodes decode back to the prompt |
| Encoding.Utf8Ascii | backend/app/services/ai_generator.py:81 | an ASCII text is encoded one byte per character |
| Encoding.Quote | backend/app/services/ai_generator.py:81 | `urllib.parse.quote(enhanced_prompt)` with its default safe character `/`, over the UTF-8 bytes; its properties are stated by `Encoding.QuoteRoundTrip`, `Encoding.QuoteInjective`, `Encoding.QuoteAlphabet`, `Encoding.QuoteNoDelimiters`, `Encoding.QuoteSafeText` and `Encoding.QuoteExamples` |
| Encoding.QuoteRoundTrip | backend/app/services/ai_generator.py:81 | percent-decoding the output of `quote` recovers the input bytes |
| Encoding.QuoteInjective | backend/app/services/ai_generator.py:81 | different prompts are encoded differently |
| Encoding.QuoteAlphabet | backend/app/services/ai_generator.py:81 | the output of `quote` consists only of unreserved characters, `/` and `%`, and every `%` is followed by two upper-case hex digits |
| Encoding.QuoteNoDelimiters | backend/app/services/ai_generator.py:81 | `?`, `&`, `=`, `#` and space never appear in an encoded prompt |
| Encoding.QuoteSafeText | backend/app/services/ai_generator.py:81 | a text made only of safe ASCII characters is left as it is |
| Encoding.QuoteExamples | backend/app/services/ai_generator.py:81 | `quote(" ") == "%20"`, `quote(",") == "%2C"`, `quote("é") == "%C3%A9"`, `quote("a/b") == "a/b"` |
| Cleaner.HeaderAtRun | backend/app/services/ai_generator.py:145 | `#+\s` matches at the front of a text exactly when the maximal run of `#` there is followed by whitespace, so backtracking into the run never helps |
| Cleaner.MatchLenSpec | backend/app/services/ai_generator.py:145 | a match exists exactly where `^` holds and `#+\s` starts; it runs over the `#` run, one whitespace character and the rest of that line, and stops before a line break or at the end |
| Cleaner.Sub | backend/app/services/ai_generator.py:145 | the substitution never lengthens the text |
| Cleaner.SubByLines | backend/app/services/ai_generator.py:145 | the substitution equals the line-level reference: header lines become empty, a run of `#` takes the next line with it, other lines are kept |
| Cleaner.StripLinesClean | backend/app/services/ai_generator.py:145 | after the substitution no line is a header line, and a run of `#` can only be the last line |
| Cleaner.StripLinesFixed | backend/app/services/ai_generator.py:145 | the line-level reference leaves already clean lines unchanged |
| Cleaner.SubIdempotent | backend/app/services/ai_generator.py:145 | applying the substitution twice gives the same text as applying it once |
| Cleaner.SubNoHeader | backend/app/services/ai_generator.py:145 | after the substitution no line starts with `#+\s` |
| Cleaner.CleanDescription | backend/app/services/ai_generator.py:142-146 | `_clean_description`: the substitution, then `strip()`; its properties are stated by `Cleaner.CleanShape`, `Cleaner.SubByLines`, `Cleaner.CleanWelcome`, `Cleaner.CleanNotIdempotent` and `Cleaner.CleanSwallowsLine` |
| Cleaner.CleanShape | backend/app/services/ai_generator.py:142-146 | the cleaned description neither starts nor ends with whitespace, and no line after its first starts with `#+\s` |
| Cleaner.CleanAfterHeader | backend/app/services/ai_generator.py:142-146 | a header line followed by a plain line cleans to the plain line |
| Cleaner.CleanIndented | backend/app/services/ai_generator.py:142-146 | whitespace in front of a kept first line is removed by `strip()` after the substitution |
| Cleaner.CleanAfterHashRun | backend/app/services/ai_generator.py:142-146 | a line of only `#` removes itself and the line after it |
| Cleaner.CleanWelcome | backend/app/services/ai_generator.py:142-146 | `clean("# Welcome\nBody text") == "Body text"` |
| Cleaner.CleanNotIdempotent | backend/app/services/ai_generator.py:142-146 | `clean("  # T\nBody") == "# T\nBody"`, and cleaning that again gives `"Body"` |
| Cleaner.CleanSwallowsLine | backend/app/services/ai_generator.py:145-146 | `clean("#\nLost\nKept") == "Kept"`: the line after a lone `#` is lost |
| ImageRequest.EnhancePrompt | backend/app/services/ai_generator.py:79-80 | `image_prompt[:200] + ", cinematic lighting"`; its properties are stated by `ImageRequest.EnhancePromptShape` |
| ImageRequest.EnhancePromptShape | backend/app/services/ai_generator.py:79-80 | the enhanced prompt is the prompt's first min(200, length) characters followed by ", cinematic lighting", and is at most 220 characters long |
| ImageRequest.ApiKeyParam | backend/app/services/ai_generator.py:83-84 | `f"&api_key={key}" if key else ""`, with the key unencoded; its property is stated by `ImageRequest.FluxUrlHasKey` |
| ImageRequest.PollinationsUrl | backend/app/services/ai_generator.py:88 | the f-string of the request URL, with the model name as a parameter; its properties are stated by `ImageRequest.UrlHasFlux`, `ImageRequest.UrlHasKey`, `ImageRequest.RetryIsTurbo` and `ImageRequest.RetryRewritesKey` |
| ImageRequest.FluxUrl | backend/app/services/ai_generator.py:77-88 | `pollinations_url` for an image prompt, a seed in 1..1000000 and the key; its properties are stated by `ImageRequest.FluxUrlHasFlux`, `ImageRequest.FluxUrlHasKey`, `ImageRequest.PromptStaysInPath` and `ImageRequest.RetryUrlIsTurbo` |
| ImageRequest.RetryUrl | backend/app/services/ai_generator.py:116 | `pollinations_url.replace("model=flux", "model=turbo")`; its properties are stated by `ImageRequest.RetryUrlIsTurbo`, `ImageRequest.RetryIsTurbo` and `ImageRequest.RetryRewritesKey` |
| ImageRequest.UrlHasFlux | backend/app/services/ai_generator.py:88 | a request URL with an encoded prompt contains "model=flux" |
| ImageRequest.FluxUrlHasFlux | backend/app/services/ai_generator.py:114-129 | the request URL always contains "model=flux", so the test at line 114 always holds and the `else` at line 128 cannot be reached |
| ImageRequest.RetryIsTurbo | backend/app/services/ai_generator.py:116 | when the key does not contain "model=flux", the replacement changes only the model parameter |
| ImageRequest.RetryUrlIsTurbo | backend/app/services/ai_generator.py:114-117 | when the API key is unset or does not contain "model=flux", the retry URL is the request URL with model "turbo", the same prompt, the same seed and the same key |
| ImageRequest.RetryRewritesKey | backend/app/services/ai_generator.py:116 | for every non-empty key, the retry URL is the Turbo URL whose key has "model=flux" replaced by "model=turbo", so a key containing "model=flux" is sent changed |
| ImageRequest.RetryRewritesFluxKey | backend/app/services/ai_generator.py:116 | the key "model=flux" is sent as "model=turbo" on the retry |
| ImageRequest.UrlHasKey | backend/app/services/ai_generator.py:84-88 | the URL contains "&api_key=" exactly when the key is set and not empty |
| ImageRequest.FluxUrlHasKey | backend/app/services/ai_generator.py:83-88 | the request URL carries an `api_key` parameter exactly when POLLINATIONS_API_KEY is set and not empty |
| ImageRequest.PromptStaysInPath | backend/app/services/ai_generator.py:81-88 | the first `?` of the URL is the one after ".png", so the prompt cannot reach the query |
| ImageFetch.UploadUrl | backend/app/services/ai_generator.py:100-109 | `f"http://localhost:8000/uploads/ai_gen_{uuid}.png"`; its properties are stated by `ImageFetch.UploadUrlInjective` |
| ImageFetch.Accepts | backend/app/services/ai_generator.py:99 | `status_code == 200 and "image" in headers.get("Content-Type", "")`, the same test as line 118; its properties are stated by `ImageFetch.MissingContentType` and `ImageFetch.FetchImage` |
| ImageFetch.UploadUrlInjective | backend/app/services/ai_generator.py:100-109 | the address of a saved image is never empty, and different uuids give different addresses |
| ImageFetch.MissingContentType | backend/app/services/ai_generator.py:99 | a response without a Content-Type header is never accepted |
| ImageFetch.FetchImage | backend/app/services/ai_generator.py:91-132 | the flux URL is requested first. The retry URL is requested second, exactly when the first request returned a rejected response and the URL contains "model=flux". An exception means no second request. `imageUrl` is "" or the uploads address of the uuid, and it is non-empty exactly when an accepted response was saved |
| EventGenerator.CleanDescriptionField | backend/app/services/ai_generator.py:67-68 | a string description is replaced by its cleaned text, any other value raises, and no other key changes |
| EventGenerator.AddImageUrl | backend/app/services/ai_generator.py:71-134 | `imageUrl` is always set and nothing else changes. Without a prompt it is "" and nothing is requested. With a string prompt, the flux URL is requested and the Turbo URL follows only after a rejected response. A prompt of another type raises (a TypeError, or a KeyError for an object on Python 3.12 and later). A second URL, when requested, is always the first with "model=flux" replaced by "model=turbo" |
| EventGenerator.GenerateEventContent | backend/app/services/ai_generator.py:59-140 | an exception from the text step is raised again with no request made. Type errors are raised in source order. Otherwise the result has the input's keys plus `imageUrl`, a cleaned description, every other key unchanged, and the image behaviour above. A second URL, when requested, is always the first with "model=flux" replaced by "model=turbo" |

## Left out

- `backend/app/services/ticket_service.py` is not part of this model. It draws PDF tickets with reportlab and qrcode, and its only computations are string templates and date formatting.
- The text step is a parameter of `GenerateEventContent`: the prompt text (lines 45-57), the Gemini client and the JSON parser (lines 60-64). It is either the parsed JSON object or the exception it raised.
- Parsed output that is not a JSON object (a top-level array) is not modelled; the result is always a map from keys to JSON values.
- The service constructor (lines 24-38), environment loading, the pydantic schema classes (lines 12-21) and the module-level singleton (line 149) are configuration and not modelled.
- `requests.get`, its headers and timeout, `os.makedirs`, `open`/`write` and `os.getcwd` are I/O. They are replaced by an `Attempt` per request and one `saved` flag for the file write. At most one write happens on any path.
- The Content-Type is given as the header value `requests` looked up. That lookup ignores case, and it is not modelled.
- `random.randint` and `uuid.uuid4` are parameters. The seed is any integer from 1 to 1000000, and the uuid is an arbitrary string. The text form of a uuid is not modelled.
- `print` logging, the `await` suspension points and concurrency between calls are not modelled.
- `\s` and `strip()` use the ASCII whitespace characters space, tab, line feed, carriage return, vertical tab and form feed. Python also counts other Unicode whitespace.
- Characters are Unicode scalar values. A prompt holding a lone surrogate would make `quote` raise `UnicodeEncodeError`, and that case is not modelled.
- JSON numbers are kept as their literal text, since the code never computes with them.
- `Strings.ReplaceAll` does not model an empty pattern, which the code never uses.
