# PDF answering tool and auth redirect rule, in Dafny

This project models two decision rules of a Next.js chat assistant.

- **The `answerFormPDF` tool** (`lib/ai/tools/answer-from-pdf.ts`). It takes a list of PDF URLs and a message. For each URL in turn, it sends a HEAD request and reads `content-length` with `parseInt(…, 10)`. Then it picks one of four routes:
  - more than 10,000,000 bytes: the remote large-PDF-to-text converter;
  - more than 3,000,000 bytes: the remote PDF-to-text converter;
  - more than 100 bytes: the remote PDF-to-markdown converter;
  - otherwise, including a missing or non-numeric header (NaN): download the file and have the model extract its text in process.

  A remote route returns that converter's `response` at once, or "No content received from PDF parser" when the response is empty. An in-process extraction overwrites the running `response` and moves on to the next URL. Any error thrown while processing a document returns "Failed to process PDF: " followed by the error's message. An empty list returns "".
- **The `middleware`** (`middleware.ts`). Visiting "/" without a session token redirects to "/login". Visiting "/login" or "/register" with a token redirects to "/". Every other request passes through.

Files:
- `wrappers.dfy`: `Option`.
- `js_parse_int.dfy`: JavaScript's `parseInt(s, 10)`, which reads the size header.
- `answer_from_pdf.dfy`: the routing, the oracles, the specification function `Answer`, and the imperative `Execute`. `Execute` is the tool's `for` loop with its early returns, proved equal to `Answer`.
- `middleware.dfy`: the redirect decision.

The network and the model are oracles, held in a `Services` value of four functions:
- `head`: the HEAD request, giving the `content-length` header if present;
- `post`: a converter call, giving `data.response` if present;
- `download`: the file download;
- `complete`: the file upload plus chat completion, giving the reply's content if present.

Each oracle returns either a value or `Threw(message)`, the error the awaited call would throw. The session token is a boolean.

Three details of the code's behaviour are worth stating plainly:
- The sizes are checked per URL, not summed across all documents.
- The smallest threshold is `> 100` bytes, although the comment beside it at line 83 says 1 MB.
- A remote route returns at once, so the URLs after it are never processed.

## Model

| member | source | states |
|---|---|---|
| JsParseInt.ParseInt | lib/ai/tools/answer-from-pdf.ts:59-62 | the definition of `parseInt(s, 10)`; its contract states that the result is a number exactly when a digit follows the leading white space and at most one sign; ParseDecimal, ParseNegativeDecimal, ParseSkipsWhiteSpace, NoDigitsIsNaN and the two Sound lemmas characterise it |
| AnswerFromPdf.ContentLength | lib/ai/tools/answer-from-pdf.ts:59-62 | the definition of `parseInt(headers["content-length"], 10)`; a missing header gives NaN; DecimalHeaderRoutesBySize and MissingHeaderInProcess characterise it |
| AnswerFromPdf.Exceeds | lib/ai/tools/answer-from-pdf.ts:64-82 | the definition of `contentLength > bound` on a JavaScript number, false for NaN; ChooseRoute's contract and RouteBoundaries characterise it |
| AnswerFromPdf.Run | lib/ai/tools/answer-from-pdf.ts:54-99 | the definition of the `for` loop that overwrites `response` and returns early on a stop; FirstStop, RunCharacterized, StopDecides, RunIgnoresSuffix and RunAllContinue characterise it |
| AnswerFromPdf.Answer | lib/ai/tools/answer-from-pdf.ts:53-103 | the definition of what `execute` resolves to; Execute is proved equal to it, and AnswerCharacterized, AnswerEmptyIffNoUrls, LaterUrlsNeverProcessed and the failure lemmas characterise it |
| JsParseInt.TrimStartSound | lib/ai/tools/answer-from-pdf.ts:59-62 | what is left after trimming is a suffix of the input; everything dropped is white space; the rest does not start with white space |
| JsParseInt.LeadingDigitsSound | lib/ai/tools/answer-from-pdf.ts:59-62 | the digits read are the longest all-digit prefix of the input |
| JsParseInt.ParseDecimal | lib/ai/tools/answer-from-pdf.ts:59-62 | a decimal size, followed by anything that does not start with a digit, parses back to that size |
| JsParseInt.ParseNegativeDecimal | lib/ai/tools/answer-from-pdf.ts:59-62 | a leading minus sign parses to the negated value |
| JsParseInt.ParseSkipsWhiteSpace | lib/ai/tools/answer-from-pdf.ts:59-62 | leading white space never changes the parsed value |
| JsParseInt.NoDigitsIsNaN | lib/ai/tools/answer-from-pdf.ts:59-62 | a string whose first non-blank character is neither a sign nor a digit parses to NaN |
| JsParseInt.UndefinedIsNaN | lib/ai/tools/answer-from-pdf.ts:59-62 | "undefined", the string `parseInt` reads for a missing header, parses to NaN |
| AnswerFromPdf.ChooseRoute | lib/ai/tools/answer-from-pdf.ts:64-94 | large-PDF route iff size > 10,000,000; PDF-to-text iff 3,000,000 < size <= 10,000,000; markdown iff 100 < size <= 3,000,000; in process iff NaN or size <= 100 |
| AnswerFromPdf.RouteMonotone | lib/ai/tools/answer-from-pdf.ts:64-94 | a larger size never takes a route of a lower bracket |
| AnswerFromPdf.RouteBoundaries | lib/ai/tools/answer-from-pdf.ts:64-94 | each threshold stays in the bracket below it, and one byte more crosses into the next route |
| AnswerFromPdf.MissingHeaderInProcess | lib/ai/tools/answer-from-pdf.ts:59-94 | a missing content-length header is NaN and takes the in-process path |
| AnswerFromPdf.DecimalHeaderRoutesBySize | lib/ai/tools/answer-from-pdf.ts:59-64 | a header holding the decimal size n routes exactly as size n does |
| AnswerFromPdf.Prompt | lib/ai/tools/answer-from-pdf.ts:30 | the prompt is the message when it is non-empty, otherwise "Summarize this document in detail"; never empty |
| AnswerFromPdf.OrFallback | lib/ai/tools/answer-from-pdf.ts:72 | a present, non-empty response is returned as is; an absent or empty one gives the fallback; the result is never empty |
| AnswerFromPdf.ExtractTextFromPdf | lib/ai/tools/answer-from-pdf.ts:6-40 | throws exactly when the completion throws, with its message; otherwise returns a non-empty text |
| AnswerFromPdf.InProcessText | lib/ai/tools/answer-from-pdf.ts:37-39 | the in-process text is the model's content, or "No content received from OpenAI" when the content is empty or missing |
| AnswerFromPdf.FailureText | lib/ai/tools/answer-from-pdf.ts:95-97 | the failure text is "Failed to process PDF: " followed by exactly the error message |
| AnswerFromPdf.ProcessUrl | lib/ai/tools/answer-from-pdf.ts:57-97 | one URL's text is never empty, and the loop goes on past a URL only when its probe succeeded and routed in process |
| AnswerFromPdf.FirstStop | lib/ai/tools/answer-from-pdf.ts:56-98 | every URL before the returned index lets the loop go on, and the URL at it (if any) returns from `execute` |
| AnswerFromPdf.RunCharacterized | lib/ai/tools/answer-from-pdf.ts:54-99 | the loop returns the first stopping URL's text; if none stops, the last URL's text; the initial response for no URLs |
| AnswerFromPdf.RunIgnoresLaterUrls | lib/ai/tools/answer-from-pdf.ts:56-98 | two URL lists that agree up to and including the stopping URL give the same result |
| AnswerFromPdf.StopDecides | lib/ai/tools/answer-from-pdf.ts:56-98 | if URL k stops the loop and all before it go on, k is the first stop, its text is the result, and k + 1 URLs are processed |
| AnswerFromPdf.RunIgnoresSuffix | lib/ai/tools/answer-from-pdf.ts:56-98 | replacing every URL after the first stop changes neither the result nor the number of URLs processed |
| AnswerFromPdf.RunAllContinue | lib/ai/tools/answer-from-pdf.ts:54-99 | when no URL stops the loop, the result is the last URL's text and every URL is processed |
| AnswerFromPdf.Execute | lib/ai/tools/answer-from-pdf.ts:53-103 | the imperative loop returns exactly `Answer`, and it sends HEAD requests for exactly the URLs up to and including the first that stops it |
| AnswerFromPdf.AnswerCharacterized | lib/ai/tools/answer-from-pdf.ts:53-103 | the result is the first stopping URL's text; if no URL stops, it is the last URL's text (overwritten, not appended); "" for no URLs |
| AnswerFromPdf.AnswerEmptyIffNoUrls | lib/ai/tools/answer-from-pdf.ts:54-56 | `execute` returns "" if and only if the URL list is empty |
| AnswerFromPdf.LaterUrlsNeverProcessed | lib/ai/tools/answer-from-pdf.ts:72-90 | replacing every URL after the first stopping one changes neither the result nor the number of URLs probed |
| AnswerFromPdf.AnswerAtStop | lib/ai/tools/answer-from-pdf.ts:56-98 | if URL k stops the loop and all before it were extracted in process, its text is the result and k + 1 URLs are probed |
| AnswerFromPdf.RemoteRouteReturnsResponse | lib/ai/tools/answer-from-pdf.ts:64-90 | the first URL on a remote route ends `execute` with the converter's response, or "No content received from PDF parser" when it is empty or missing; no later URL is probed |
| AnswerFromPdf.ProbeFailureReturnsMessage | lib/ai/tools/answer-from-pdf.ts:57-97 | a HEAD request that throws ends `execute` with "Failed to process PDF: " + its message |
| AnswerFromPdf.ConverterFailureReturnsMessage | lib/ai/tools/answer-from-pdf.ts:64-97 | a converter call that throws ends `execute` with "Failed to process PDF: " + its message |
| AnswerFromPdf.ExtractionFailureReturnsMessage | lib/ai/tools/answer-from-pdf.ts:91-97 | a download or in-process extraction that throws ends `execute` with "Failed to process PDF: " + its message, even after earlier documents succeeded |
| AnswerFromPdf.AllInProcessYieldsLast | lib/ai/tools/answer-from-pdf.ts:53-99 | when every URL is extracted in process, the result is the last document's text alone and every URL is probed |
| Middleware.Decide | middleware.ts:4-17 | redirect to "/login" iff the path is "/" with no token; redirect to "/" iff the path is "/login" or "/register" with a token; pass through otherwise |
| Middleware.OtherPathsPassThrough | middleware.ts:5-16 | any other path passes through, whatever the token state |
| Middleware.NoRedirectLoop | middleware.ts:5-16 | with the token unchanged, the target of a redirect passes through |
| Middleware.AtMostOneRedirect | middleware.ts:5-16 | following redirects from any path takes at most one hop |

## Left out

- HTTP calls (`axios.head`, `axios.post`, `axios.get`), the OpenAI file upload and chat completion, and `Buffer`/`File` handling. These are oracles in `Services`, modelled as functions of their arguments. A URL listed twice therefore gets the same answers both times.
- The outer `catch` at lib/ai/tools/answer-from-pdf.ts:100-101 ("PDF processing error: "). The inner `catch` handles every error thrown while processing a document. The outer one could only fire if reading `error.message` threw, i.e. a thrown `null` or `undefined`. The model's errors always carry a message.
- Non-string values in `data.response` or in the model's content (numbers, objects). The model has only strings, absent or present. `0` and `false` would also take the `||` fallback in JavaScript.
- JavaScript number precision in `parseInt`. Integers are unbounded here. Rounding a very long digit string to a double never moves it across the 100, 3,000,000 or 10,000,000 thresholds, so routing is unaffected.
- A `content-length` header that is an array or a number rather than a string is not modelled; the header is a string or absent.
- Async sequencing: each URL is awaited in turn, so the loop is sequential.
- `process.env` secrets and `getToken` JWT decoding. These are external libraries, reduced to the boolean `hasToken`.
- The `config.matcher` patterns (middleware.ts:19-21). They depend on Next.js path matching. The model applies the decision to every path.
- The redirect's absolute URL (`new URL('/login', req.url)`). The model keeps only the target path.
- Everything else in the repository: the chat route, the stylized-image tool, the UI components, the database schema and the Next.js configuration.
