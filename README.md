# NoTube download API — a Dafny model

The service is a small HTTP wrapper around an upstream video-conversion
endpoint. Its one real endpoint, `GET /api/download`, does four things:

- It takes `url`, `format`, `lang` and `subscribed` from the query string.
- It replaces a format that is not on a fixed list of nine with `mp4`.
- It builds an `application/x-www-form-urlencoded` body in which only `url`
  is percent-encoded.
- It POSTs that body through `fetch_with_retry`, which makes up to three
  attempts. After each failed attempt except the last it sleeps `2 * 2^attempt`
  seconds.

The reply is a JSON object. It holds the payload and the echoed parameters with
status 200, or the text `Error fetching video data: ` followed by the
exception's text with status 500.

The model has seven modules:

- `Wrappers` holds `Option`, which stands for a value or Python's `None`.
- `Attempt` deals with one attempt. The POST, `raise_for_status()` and
  `resp.json()` sit in one `try` block, so each of them can fail the attempt.
  `Attempt` classifies the attempt as a payload or an error text.
- `Retry` holds the retry loop as a method with a `while` loop. The method is
  proved equal to a recursive specification (`Run`). `Run` is proved equal to
  a loop-free reference (`Expected`). Lemmas cover:
  - the number of attempts;
  - the last error;
  - the backoff schedule and its total;
  - the `raise` after the loop, which only a non-positive budget reaches (the
    result type has a constructor of its own for it, `Fallback`);
  - the fact that the kind of failure does not matter.
- `Formats` holds the allow-list and the normalisation of the format.
- `Percent` holds `urllib.parse.quote` with its default `safe='/'`. It encodes
  in UTF-8 and writes `%XX` in upper case, as in sections 2.1 and 2.3 of
  RFC 3986. `Percent` also has a decoder, and the round trip is proved for
  ASCII input.
- `Form` holds the form body, plus a model of how a receiver reads one: split
  at `&`, split each piece at its first `=`, turn `+` into a space, then
  percent-decode. It proves two things:
  - The body reads back as exactly the four fields.
  - `lang` (like `subscribed`) is inserted verbatim, so an `&` inside it
    injects an extra field.
- `Download` holds the endpoint: query defaults, the reply shapes, and a
  `Download` method that runs the whole request against a given sequence of
  upstream answers.

The upstream is modelled as a sequence of answers, one per attempt. An answer
is a transport error or a reply. A reply fails when its status is not 2xx or
its body is not JSON. The JSON payload is an opaque type parameter. Sleeps are
recorded as their durations in a log instead of being waited for.

`main.py:68` encodes only `url`; `format`, `lang` and `subscribed` go in
verbatim, and `Form.LangIsInsertedVerbatim` shows the effect.

## Model

| member | source | states |
|---|---|---|
| `Attempt.Fails` | main.py:42-47 | Definition, no contract: an answer fails when it is a transport error, its status is not 2xx, or its body is not JSON. |
| `Attempt.Classify` | main.py:42-47 | An attempt fails exactly when the transport fails, the status is not 2xx, or the body is not JSON. The status is checked before the body. Each failure gives the text of its own exception. A success gives the parsed JSON. |
| `Retry.Schedule` | main.py:51 | The n sleeps that can come before attempt n: the k-th is `delay * 2^k`. |
| `Retry.RunFrom` | main.py:40-52 | From any attempt below the budget, the loop stops within the budget, with one sleep fewer than attempts, and never reaches the raise after the loop. A re-raise inside the loop uses the whole budget. Past the budget the call ends with the raise after the loop, carrying the last error as it stands. |
| `Retry.Run` | main.py:40-52 | Definition, no contract: `last_error = None`, then the loop from attempt 0. This is the recursive specification every retry lemma is stated about. |
| `Retry.Expected` | main.py:38-52 | Definition, no contract: the loop-free reference. No budget gives the raise after the loop with `None`. Otherwise the result is the first success among the allowed attempts after one sleep per earlier failure, or else the re-raised last error after `retries - 1` sleeps. |
| `Retry.FirstSuccess` | main.py:41-45 | The index of the first answer that does not fail, with every earlier answer failing, or none if all fail. |
| `Retry.FetchWithRetry` | main.py:38-52 | The `for`/`try`/`except` loop returns the result, the attempt count and the sleep log that the recursive specification `Run` gives for the same answers. With a positive budget it never ends with the raise after the loop. With no budget it ends there, with `None`. |
| `Retry.RunFromReachesSuccess` | main.py:41-51 | From an attempt before the first success, the loop returns that success's payload, and the sleeps are the rest of the schedule up to it. |
| `Retry.RunFromExhausts` | main.py:41-51 | From an attempt where every remaining answer fails, the loop raises with the last answer's error, and the sleeps are the rest of the schedule. |
| `Retry.RunIsExpected` | main.py:38-52 | The loop equals the loop-free reference in every case: no budget; the first success within the budget; or every attempt failing. |
| `Retry.RunOutcome` | main.py:41-52 | With a positive budget, a call never ends with the raise after the loop. It returns a payload exactly when some attempt within the budget succeeds. The payload is the first success's, after the schedule up to that attempt. Otherwise the call re-raises the last attempt's error after `retries - 1` sleeps. |
| `Retry.ScheduleSum` | main.py:51 | The first n sleeps add up to `delay * (2^n - 1)`. |
| `Retry.AllAttemptsFail` | main.py:41-49 | If every attempt fails, there are exactly `retries` attempts and the last attempt's error is raised. There are `retries - 1` sleeps, the k-th is `delay * 2^k`, and none comes after the last attempt. |
| `Retry.FirstSuccessStops` | main.py:41-51 | The first success at attempt k ends the loop after k+1 attempts with that payload. Before it come k sleeps totalling `delay * (2^k - 1)`. |
| `Retry.NoBudget` | main.py:40-52 | With `retries <= 0` no attempt is made, and the call ends with the raise after the loop, carrying `None`. |
| `Retry.FallbackRaiseUnreachable` | main.py:48-52 | With a positive budget, the raise after the loop is never how the call ends, and the re-raise inside the loop comes only after every attempt has been used. |
| `Retry.RunSeesOnlyConsumedOutcomes` | main.py:41-47 | Two upstreams whose answers classify alike on the attempts made give the same run. Answers after the stopping attempt are never consumed. |
| `Retry.RunFromSeesOnlyConsumed` | main.py:41-47 | The same, from any attempt with any last error. |
| `Retry.FailureKindsUniform` | main.py:46-47 | Replacing a failing answer with a failing answer of another kind but the same text leaves the run unchanged. |
| `Formats.Normalize` | main.py:65-66 | The result is always on the list. A listed format is kept; any other becomes `mp4`. |
| `Formats.NormalizeFixesExactlyFormats` | main.py:65-66 | Normalisation leaves a format unchanged exactly when the format is on the list. |
| `Formats.NormalizeIdempotent` | main.py:65-66 | Normalising twice gives the same as normalising once. |
| `Percent.HexDigit` | main.py:68 | The digit `quote` writes after `%` is `0`-`9` or an upper-case `A`-`F`, and so is unreserved. |
| `Percent.HexValue` | main.py:68 | A character has a value exactly when it is a hex digit of either case (`0`-`9`, `A`-`F`, `a`-`f`), and that value is below 16. |
| `Percent.HexValueOfDigit` | main.py:68 | Reading a written hex digit gives back its value. |
| `Percent.Utf8` | main.py:68 | The UTF-8 encoding of a character is 1 to 4 bytes. An ASCII character is its own byte; the bytes of any other character are all at least 0x80. |
| `Percent.QuoteChar` | main.py:68 | Definition, no contract: a safe character is kept, and any other becomes the `%XX` of each of its UTF-8 bytes. `Percent.Quote` and `Percent.QuoteCharDecodes` state its properties. |
| `Percent.PercentEncode` | main.py:68 | Each byte becomes three characters, each `%` or an unreserved character. |
| `Percent.Quote` | main.py:68 | `quote(url)` with `safe='/'` outputs only unreserved characters, `/` and `%`. It leaves a string of unreserved characters and `/` unchanged, and never shortens its input. |
| `Percent.QuoteHasNoDelimiters` | main.py:68 | `quote(url)` contains no `&`, `=`, space or `+`. |
| `Percent.PercentDecode` | main.py:68 | Decoding never lengthens a string. |
| `Percent.PercentDecodeNoEscapes` | main.py:68 | A string without `%` decodes to itself. |
| `Percent.QuoteCharDecodes` | main.py:68 | The encoding of one ASCII character decodes back to that character, whatever follows it. |
| `Percent.QuoteRoundTrip` | main.py:68 | For ASCII input, decoding `quote(url)` gives back `url`. |
| `Form.FormBody` | main.py:68 | Definition, no contract: the f-string `url={quote(url)}&format={format}&lang={lang}&subscribed={subscribed}`. `Form.FormBodyFields` and `Form.FormBodyParses` state its properties. |
| `Form.ParseForm` | main.py:68 | Definition, no contract: how a receiver reads a form body. It splits at `&`, drops empty pieces, and reads each piece as a name and a value. This is the reference that `Form.FormBodyParses` relates `FormBody` to. |
| `Form.Split` | main.py:68 | Splitting at `&` gives at least one piece, and no piece contains `&`. |
| `Form.JoinSplit` | main.py:68 | Joining the pieces of a split gives back the string. |
| `Form.SplitNoSeparator` | main.py:68 | A string without the separator is one piece. |
| `Form.SplitAtFirstSeparator` | main.py:68 | Splitting a string at a separator that follows a separator-free prefix gives that prefix first, then the split of the rest. |
| `Form.SplitJoin` | main.py:68 | Splitting undoes joining pieces that hold no separator. |
| `Form.Find` | main.py:68 | Find returns the first position of the character, or none when the character is absent. |
| `Form.FindAfterName` | main.py:68 | In `name=value`, with no `=` in the name, the first `=` is the one after the name. |
| `Form.PlusToSpace` | main.py:68 | The length is kept, and exactly the `+` characters become spaces. |
| `Form.PlainDecodes` | main.py:68 | A value without `&`, `%` or `+` reads back as itself. |
| `Form.QuotedDecodes` | main.py:68 | An ASCII url, quoted and then form-decoded, reads back as itself. |
| `Form.ParseField` | main.py:68 | A `name=value` piece with a plain name reads as that name and the decoded value. |
| `Form.FormBodyFields` | main.py:68 | The body is the four fields `url=quote(url)`, `format=…`, `lang=…` and `subscribed=…` joined with `&`. The last three values are inserted verbatim. |
| `Form.JoinFields` | main.py:68 | The f-string equals the `&`-join of its four `name=value` fields, for any url text. |
| `Form.JoinFour` | main.py:68 | An `&`-join of four pieces is the pieces with `&` between them. |
| `Form.Pieces` | main.py:68 | Each field becomes one `name=value` piece, in order. |
| `Form.DecodedFields` | main.py:68 | Each field keeps its name and has its value form-decoded, in order. |
| `Form.PiecesParse` | main.py:68 | Pieces of fields with plain names read back as those fields with their values decoded. |
| `Form.FieldsParse` | main.py:68 | Fields with plain names and `&`-free values, joined with `&`, read back as the same list with values decoded. |
| `Form.FourFieldsRead` | main.py:68 | Four such fields read back in order. |
| `Form.FormBodyParses` | main.py:68 | For an ASCII url and plain format, lang and subscribed, the receiver reads exactly `url`, `format`, `lang` and `subscribed`, in that order, with the original values. |
| `Form.JoinSplitsThird` | main.py:68 | An `&` inside the third piece turns the join into a join of five pieces. |
| `Form.FiveFieldsRead` | main.py:68 | Five such fields read back in order. |
| `Form.LangIsInsertedVerbatim` | main.py:68 | `lang` is not encoded: with `lang = "en&format=mp3"` the receiver reads five fields, with a second `format` equal to `mp3`. |
| `Download.FromQuery` | main.py:59-63 | Definition, no contract: `url` is given, and an absent `format`, `lang` or `subscribed` becomes `mp4hd`, `en` or `false`. |
| `Download.DefaultFormatKept` | main.py:61-68 | A request without a format normalises to `mp4hd`, which is on the list. The body it sends is `format=mp4hd` with the given or default `lang` and `subscribed`. |
| `Download.ExceptionText` | main.py:49-52 | Definition, no contract: `str(e)` of what the fetcher raised. That is the re-raised attempt's own text, the last error of the raise after the loop, or `None` for `Exception(None)`. `Download.Respond` states the message built from it. |
| `Download.Respond` | main.py:72-87 | The status is 200 exactly when the fetch succeeded, and 500 otherwise. A success body has `success` true and its `status` field equal to the HTTP status. It also echoes the normalised format, `lang`, `subscribed`, the url, the owner link and `successful`. An error body has `success` false. Its message is the prefix followed by the re-raised attempt's text, or by the last error of the raise after the loop, or by `None` when that error is `None`. |
| `Download.ErrorMessagePrefixed` | main.py:86 | Every error message starts with `Error fetching video data: `. |
| `Download.Download` | main.py:58-87 | The endpoint makes three attempts with delay 2. It sends the body of the normalised parameters. It replies 200 exactly when some attempt succeeds: the payload comes from the first success, after that attempt's share of the schedule, and the format is on the list. Otherwise it replies 500 with the third attempt's error, after sleeps of 2 and 4. |
| `Download.FormatsArePlain` | main.py:34-36 | Every listed format needs no encoding in the form body. |
| `Download.SentBodyReadsBack` | main.py:65-68 | The upstream reads back the url, the normalised format, `lang` and `subscribed`, provided the url is ASCII and the other two are plain. |
| `Download.UnknownFormat` | main.py:65-66 | The format `bogus` is sent as `mp4`. |
| `Download.ExampleUnavailableUpstream` | main.py:58-87 | A method with no contract; its assertions are checked. A request with format `bogus`, against an upstream that answers 503 three times, sends body `url=…&format=mp4&lang=en&subscribed=false`. It sleeps 2 and then 4 seconds, and replies 500 with `Error fetching video data: ` followed by the 503 error text. |

## Left out

- The FastAPI application: routing, the static files, the Jinja template of `/`, and the `/health` endpoint. They are framework glue with no logic of their own.
- FastAPI's 422 reply for a missing `url`: that validation is done by the framework. The model takes `url` as given.
- The request headers (`HEADER`), the 15-second client timeout and the upstream URL. These are I/O configuration. A timeout shows up only as a transport error among the upstream's answers.
- `async`, `await` and `asyncio.sleep`: a sleep is recorded as its duration and not waited for.
- The JSON payload's content and its serialisation: the payload is an opaque type.
- Retry.FetchWithRetry: the upstream must supply an answer for every attempt within the budget (`retries <= |rs|`), including the attempts after the first success. Those later answers are never consumed.
- Percent.PercentDecode: it maps `%XX` to the character with code XX. That agrees with `urllib.parse.unquote` only for codes below 0x80, so the round trip is proved for ASCII urls only.
- The `UnicodeEncodeError` that `quote` raises on a lone surrogate: a Dafny `char` is a Unicode scalar value, so no surrogate can be given.
- Form.FormBodyParses: it is proved only for plain `lang` and `subscribed` values. Other values are not encoded, so they do not read back; `LangIsInsertedVerbatim` shows one such case.
