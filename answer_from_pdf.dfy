/** The `answerFormPDF` tool of lib/ai/tools/answer-from-pdf.ts: for each PDF
    URL in turn, probe its size with a HEAD request and either hand the URL to
    one of three remote converters (and return at once) or download it and
    have the model extract its text in process (and go on to the next URL).

    The network and the model are oracles: a `Services` value says what every
    call would return, or which error it would throw. */
module AnswerFromPdf {
  import opened Wrappers
  import opened JsParseInt

  /** The outcome of an awaited call: its value, or the `message` of the
      error it threw. */
  datatype Attempt<+T> = Returned(value: T) | Threw(message: string)

  type Bytes = seq<bv8>

  /** What the outside world answers.
      - head(url): `axios.head(url)`, giving the `content-length` header if present;
      - post(endpoint, url): `axios.post(endpoint, { pdfUrl: url })`, giving
        `data.response` (None when absent or null);
      - download(url): `axios.get(url)` as an array buffer (`downloadPDF`);
      - complete(pdf, prompt): the file upload and chat completion of
        `extractTextFromPDF`, giving the first choice's content (None when null). */
  datatype Services = Services(
    head: string -> Attempt<Option<string>>,
    post: (string, string) -> Attempt<Option<string>>,
    download: string -> Attempt<Bytes>,
    complete: (Bytes, string) -> Attempt<Option<string>>)

  const LargePdfThreshold: int := 10 * 1000000
  const PdfToTextThreshold: int := 3 * 1000000
  const MarkdownThreshold: int := 100

  const LargePdfToTextUrl := "http://13.234.67.194/api/convert-large-pdf-to-text"
  const PdfToTextUrl := "http://13.234.67.194/api/convert-pdf-to-text"
  const PdfToMarkdownUrl := "http://13.234.67.194/api/convert-pdf-to-markdown"

  const DefaultPrompt := "Summarize this document in detail"
  const NoModelContent := "No content received from OpenAI"
  const NoParserContent := "No content received from PDF parser"
  const FailurePrefix := "Failed to process PDF: "

  datatype Endpoint = LargePdfToText | PdfToText | PdfToMarkdown

  function EndpointUrl(e: Endpoint): string {
    match e
    case LargePdfToText => LargePdfToTextUrl
    case PdfToText => PdfToTextUrl
    case PdfToMarkdown => PdfToMarkdownUrl
  }

  /** Where one document goes. */
  datatype Route = Remote(endpoint: Endpoint) | InProcess

  /** `n > bound` on a JavaScript number: false whenever `n` is NaN. */
  predicate Exceeds(n: Number, bound: int) {
    n.Int? && n.value > bound
  }

  /** `parseInt(headers["content-length"], 10)`; an absent header is
      `undefined`, which `parseInt` reads as the string "undefined". */
  function ContentLength(header: Option<string>): (n: Number)
    ensures header.None? ==> n == NaN
  {
    UndefinedIsNaN();
    ParseInt(header.GetOr("undefined"))
  }

  /** The if/else-if chain on the content length. Each route is taken on
      exactly one bracket; NaN takes the in-process path. */
  function ChooseRoute(contentLength: Number): (r: Route)
    ensures r == Remote(LargePdfToText) <==>
              contentLength.Int? && contentLength.value > LargePdfThreshold
    ensures r == Remote(PdfToText) <==>
              contentLength.Int? && PdfToTextThreshold < contentLength.value <= LargePdfThreshold
    ensures r == Remote(PdfToMarkdown) <==>
              contentLength.Int? && MarkdownThreshold < contentLength.value <= PdfToTextThreshold
    ensures r == InProcess <==>
              contentLength.NaN? || contentLength.value <= MarkdownThreshold
  {
    if Exceeds(contentLength, LargePdfThreshold) then Remote(LargePdfToText)
    else if Exceeds(contentLength, PdfToTextThreshold) then Remote(PdfToText)
    else if Exceeds(contentLength, MarkdownThreshold) then Remote(PdfToMarkdown)
    else InProcess
  }

  /** `message || "Summarize this document in detail"`. */
  function Prompt(message: string): (p: string)
    ensures p != ""
    ensures message != "" ==> p == message
    ensures message == "" ==> p == DefaultPrompt
  {
    if message == "" then DefaultPrompt else message
  }

  /** `value || fallback` on an optional string: null, undefined and the
      empty string all give the fallback. */
  function OrFallback(value: Option<string>, fallback: string): (r: string)
    requires fallback != ""
    ensures r != ""
    ensures value.Some? && value.value != "" ==> r == value.value
    ensures value.None? || value.value == "" ==> r == fallback
  {
    if value.Some? && value.value != "" then value.value else fallback
  }

  /** `extractTextFromPDF(pdf, message)`: never an empty text. */
  function ExtractTextFromPdf(svc: Services, pdf: Bytes, message: string): (a: Attempt<string>)
    ensures a.Returned? ==> a.value != ""
    ensures svc.complete(pdf, Prompt(message)).Threw? <==> a.Threw?
    ensures a.Threw? ==> a.message == svc.complete(pdf, Prompt(message)).message
  {
    match svc.complete(pdf, Prompt(message))
    case Threw(e) => Threw(e)
    case Returned(content) => Returned(OrFallback(content, NoModelContent))
  }

  /** The text `execute` returns when processing a document throws. */
  function FailureText(message: string): (t: string)
    ensures |t| >= |FailurePrefix| && t[..|FailurePrefix|] == FailurePrefix
    ensures t[|FailurePrefix|..] == message
  {
    FailurePrefix + message
  }

  /** What one pass of the loop does with one URL: `Stop(text)` when
      `execute` returns `text` from inside the loop, `Continue(text)` when it
      assigns `text` to `response` and goes on. */
  datatype Step = Stop(text: string) | Continue(text: string)

  function ProcessUrl(svc: Services, url: string, message: string): (s: Step)
    ensures s.text != ""
    ensures s.Continue? ==>
              svc.head(url).Returned? && ChooseRoute(ContentLength(svc.head(url).value)) == InProcess
  {
    match svc.head(url)
    case Threw(e) => Stop(FailureText(e))
    case Returned(header) =>
      match ChooseRoute(ContentLength(header))
      case Remote(endpoint) =>
        (match svc.post(EndpointUrl(endpoint), url)
         case Threw(e) => Stop(FailureText(e))
         case Returned(response) => Stop(OrFallback(response, NoParserContent)))
      case InProcess =>
        match svc.download(url)
        case Threw(e) => Stop(FailureText(e))
        case Returned(pdf) =>
          match ExtractTextFromPdf(svc, pdf, message)
          case Threw(e) => Stop(FailureText(e))
          case Returned(text) => Continue(text)
  }

  // ---------------------------------------------------------------------
  // Routing

  /** The order of the routes by the sizes that take them. */
  function Tier(r: Route): nat {
    match r
    case InProcess => 0
    case Remote(PdfToMarkdown) => 1
    case Remote(PdfToText) => 2
    case Remote(LargePdfToText) => 3
  }

  /** A larger document never takes a route meant for smaller ones. */
  lemma RouteMonotone(small: int, large: int)
    requires small <= large
    ensures Tier(ChooseRoute(Int(small))) <= Tier(ChooseRoute(Int(large)))
  {
  }

  /** Each threshold belongs to the bracket below it: one byte more crosses
      into the next route. */
  lemma RouteBoundaries()
    ensures ChooseRoute(Int(10000000)) == Remote(PdfToText)
    ensures ChooseRoute(Int(10000001)) == Remote(LargePdfToText)
    ensures ChooseRoute(Int(3000000)) == Remote(PdfToMarkdown)
    ensures ChooseRoute(Int(3000001)) == Remote(PdfToText)
    ensures ChooseRoute(Int(100)) == InProcess
    ensures ChooseRoute(Int(101)) == Remote(PdfToMarkdown)
  {
  }

  /** A missing `content-length` header is NaN and is extracted in process. */
  lemma MissingHeaderInProcess()
    ensures ContentLength(None) == NaN
    ensures ChooseRoute(ContentLength(None)) == InProcess
  {
    UndefinedIsNaN();
  }

  /** A header holding the decimal size `n` routes by `n`. */
  lemma DecimalHeaderRoutesBySize(n: nat)
    ensures ChooseRoute(ContentLength(Some(Decimal(n)))) == ChooseRoute(Int(n))
  {
    assert Decimal(n) + [] == Decimal(n);
    ParseDecimal(n, []);
  }

  // ---------------------------------------------------------------------
  // The loop, for any way `process` of handling one URL

  /** The rest of the `for` loop over `urls`, each URL handled by `process`,
      when `response` holds `response`. */
  function Run(process: string -> Step, urls: seq<string>, response: string): string
  {
    if urls == [] then response
    else match process(urls[0])
      case Stop(text) => text
      case Continue(text) => Run(process, urls[1..], text)
  }

  /** The index of the first URL at which the loop returns, or `|urls|`
      when every URL lets it go on. */
  function FirstStop(process: string -> Step, urls: seq<string>): (k: nat)
    ensures k <= |urls|
    ensures forall j :: 0 <= j < k ==> process(urls[j]).Continue?
    ensures k < |urls| ==> process(urls[k]).Stop?
  {
    if urls == [] || process(urls[0]).Stop? then 0
    else
      var k := FirstStop(process, urls[1..]);
      assert forall j :: 1 <= j <= k && j < |urls| ==> urls[j] == urls[1..][j - 1];
      1 + k
  }

  /** The number of URLs the loop starts to process: up to and including
      the first that stops it. */
  function ProcessedCount(process: string -> Step, urls: seq<string>): nat {
    var k := FirstStop(process, urls);
    if k < |urls| then k + 1 else |urls|
  }

  /** A URL at which the loop stops decides the result and the count. */
  lemma StopsAt(process: string -> Step, urls: seq<string>, i: nat, response: string)
    requires i < |urls| && FirstStop(process, urls) >= i
    requires process(urls[i]).Stop?
    ensures Run(process, urls[i..], response) == process(urls[i]).text
    ensures ProcessedCount(process, urls) == i + 1
  {
    assert urls[i..][0] == urls[i];
  }

  /** A URL that lets the loop go on replaces `response` with its text. */
  lemma ContinuesAt(process: string -> Step, urls: seq<string>, i: nat, response: string)
    requires i < |urls| && FirstStop(process, urls) >= i
    requires process(urls[i]).Continue?
    ensures Run(process, urls[i..], response) == Run(process, urls[i + 1..], process(urls[i]).text)
    ensures FirstStop(process, urls) >= i + 1
  {
    assert urls[i..][0] == urls[i] && urls[i..][1..] == urls[i + 1..];
  }

  /** The loop returns the text of the first URL that stops it; when none
      does, the text of the last URL, or `response` for no URLs. */
  lemma {:induction false} RunCharacterized(process: string -> Step, urls: seq<string>, response: string)
    ensures FirstStop(process, urls) < |urls| ==>
              Run(process, urls, response) == process(urls[FirstStop(process, urls)]).text
    ensures FirstStop(process, urls) == |urls| && urls != [] ==>
              Run(process, urls, response) == process(urls[|urls| - 1]).text
    ensures urls == [] ==> Run(process, urls, response) == response
  {
    if urls != [] && process(urls[0]).Continue? {
      var rest := urls[1..];
      RunCharacterized(process, rest, process(urls[0]).text);
      if rest != [] {
        assert rest[|rest| - 1] == urls[|urls| - 1];
      }
      var k := FirstStop(process, rest);
      if k < |rest| {
        assert rest[k] == urls[k + 1];
      }
    }
  }

  /** Two URL lists that agree up to and including the URL `k` that stops
      the loop give the same result: nothing after it is ever looked at. */
  lemma {:induction false} RunIgnoresLaterUrls(process: string -> Step, urls: seq<string>, other: seq<string>,
                                               response: string, k: nat)
    requires k < |urls| && k < |other|
    requires forall j :: 0 <= j <= k ==> other[j] == urls[j]
    requires forall j :: 0 <= j < k ==> process(urls[j]).Continue?
    requires process(urls[k]).Stop?
    ensures Run(process, other, response) == Run(process, urls, response)
  {
    assert other[0] == urls[0];
    if k > 0 {
      var text := process(urls[0]).text;
      var urls', other' := urls[1..], other[1..];
      forall j | 0 <= j < k - 1
        ensures process(urls'[j]).Continue?
      {
        assert urls'[j] == urls[j + 1];
      }
      forall j | 0 <= j <= k - 1
        ensures other'[j] == urls'[j]
      {
        assert other'[j] == other[j + 1];
      }
      RunIgnoresLaterUrls(process, urls', other', text, k - 1);
    }
  }

  /** If URL `k` stops the loop and every URL before it lets it go on, `k`
      is the first stop and its text is the result. */
  lemma StopDecides(process: string -> Step, urls: seq<string>, k: nat, response: string)
    requires k < |urls|
    requires forall j :: 0 <= j < k ==> process(urls[j]).Continue?
    requires process(urls[k]).Stop?
    ensures FirstStop(process, urls) == k
    ensures Run(process, urls, response) == process(urls[k]).text
    ensures ProcessedCount(process, urls) == k + 1
  {
    RunCharacterized(process, urls, response);
  }

  /** Replacing every URL after the first stop changes neither the result
      nor the number of URLs processed. */
  // `k` is only a name for `FirstStop(process, urls)`.
  lemma RunIgnoresSuffix(process: string -> Step, urls: seq<string>, later: seq<string>, k: nat)
    requires k == FirstStop(process, urls) && k < |urls|
    ensures Run(process, urls[..k + 1] + later, "") == Run(process, urls, "")
    ensures ProcessedCount(process, urls[..k + 1] + later) == k + 1
  {
    var other := urls[..k + 1] + later;
    forall j | 0 <= j <= k
      ensures other[j] == urls[j]
    {
      assert other[j] == urls[..k + 1][j];
    }
    RunIgnoresLaterUrls(process, urls, other, "", k);
    StopDecides(process, other, k, "");
  }

  /** When no URL stops the loop, the result is the last URL's text. */
  lemma RunAllContinue(process: string -> Step, urls: seq<string>, response: string)
    requires urls != []
    requires forall j :: 0 <= j < |urls| ==> process(urls[j]).Continue?
    ensures Run(process, urls, response) == process(urls[|urls| - 1]).text
    ensures ProcessedCount(process, urls) == |urls|
  {
    RunCharacterized(process, urls, response);
  }

  // ---------------------------------------------------------------------
  // execute

  /** One pass of the loop body on `url`. */
  function Processor(svc: Services, message: string): (process: string -> Step)
  {
    url => ProcessUrl(svc, url, message)
  }

  /** What `execute({ allPDFUrls: urls, message })` resolves to. */
  function Answer(svc: Services, urls: seq<string>, message: string): string {
    Run(Processor(svc, message), urls, "")
  }

  /** The tool's `execute`, statement by statement. `probed` counts the URLs
      whose HEAD request was sent. */
  method Execute(svc: Services, allPdfUrls: seq<string>, message: string)
    returns (result: string, ghost probed: nat)
    ensures result == Answer(svc, allPdfUrls, message)
    ensures probed == ProcessedCount(Processor(svc, message), allPdfUrls)
  {
    ghost var process := Processor(svc, message);
    var response := "";
    probed := 0;
    for i := 0 to |allPdfUrls|
      invariant probed == i
      invariant FirstStop(process, allPdfUrls) >= i
      invariant Answer(svc, allPdfUrls, message) == Run(process, allPdfUrls[i..], response)
    {
      var pdfUrl := allPdfUrls[i];
      ghost var step := ProcessUrl(svc, pdfUrl, message);
      assert process(pdfUrl) == step;
      probed := probed + 1;
      var headResponse := svc.head(pdfUrl);
      if headResponse.Threw? {
        result := FailureText(headResponse.message);
        assert step == Stop(result);
        StopsAt(process, allPdfUrls, i, response);
        return;
      }
      var contentLength := ContentLength(headResponse.value);
      ghost var route := ChooseRoute(contentLength);
      if Exceeds(contentLength, 10 * 1000000) {
        assert route == Remote(LargePdfToText);
        var data := svc.post(LargePdfToTextUrl, pdfUrl);
        result := if data.Threw? then FailureText(data.message) else OrFallback(data.value, NoParserContent);
        assert step == Stop(result);
        StopsAt(process, allPdfUrls, i, response);
        return;
      } else if Exceeds(contentLength, 3 * 1000000) {
        assert route == Remote(PdfToText);
        var data := svc.post(PdfToTextUrl, pdfUrl);
        result := if data.Threw? then FailureText(data.message) else OrFallback(data.value, NoParserContent);
        assert step == Stop(result);
        StopsAt(process, allPdfUrls, i, response);
        return;
      } else if Exceeds(contentLength, 100) {
        assert route == Remote(PdfToMarkdown);
        var data := svc.post(PdfToMarkdownUrl, pdfUrl);
        result := if data.Threw? then FailureText(data.message) else OrFallback(data.value, NoParserContent);
        assert step == Stop(result);
        StopsAt(process, allPdfUrls, i, response);
        return;
      } else {
        assert route == InProcess;
        var pdfBuffer := svc.download(pdfUrl);
        if pdfBuffer.Threw? {
          result := FailureText(pdfBuffer.message);
          assert step == Stop(result);
          StopsAt(process, allPdfUrls, i, response);
          return;
        }
        var extracted := ExtractTextFromPdf(svc, pdfBuffer.value, message);
        if extracted.Threw? {
          result := FailureText(extracted.message);
          assert step == Stop(result);
          StopsAt(process, allPdfUrls, i, response);
          return;
        }
        assert step == Continue(extracted.value);
        ContinuesAt(process, allPdfUrls, i, response);
        response := extracted.value;
      }
    }
    result := response;
  }

  /** `execute` returns the text of the first URL that stops the loop (a
      remote route or a failure); when none does, the text extracted from
      the LAST URL, which overwrote the earlier ones; and "" for no URLs. */
  // `k` is only a name for `FirstStop(Processor(svc, message), urls)`.
  lemma AnswerCharacterized(svc: Services, urls: seq<string>, message: string, k: nat)
    requires k == FirstStop(Processor(svc, message), urls)
    ensures k < |urls| ==> Answer(svc, urls, message) == ProcessUrl(svc, urls[k], message).text
    ensures k == |urls| && urls != [] ==>
              Answer(svc, urls, message) == ProcessUrl(svc, urls[|urls| - 1], message).text
    ensures urls == [] ==> Answer(svc, urls, message) == ""
  {
    RunCharacterized(Processor(svc, message), urls, "");
  }

  /** An empty URL list resolves to the empty string, and only it does:
      every document yields a non-empty text. */
  lemma AnswerEmptyIffNoUrls(svc: Services, urls: seq<string>, message: string)
    ensures Answer(svc, urls, message) == "" <==> urls == []
  {
    AnswerCharacterized(svc, urls, message, FirstStop(Processor(svc, message), urls));
  }

  /** Once some URL takes a remote route or fails, the URLs after it can be
      anything at all: the answer is the same and no more URLs are probed. */
  // `k` is only a name for `FirstStop(Processor(svc, message), urls)`.
  lemma LaterUrlsNeverProcessed(svc: Services, urls: seq<string>, later: seq<string>, message: string, k: nat)
    requires k == FirstStop(Processor(svc, message), urls) && k < |urls|
    ensures Answer(svc, urls[..k + 1] + later, message) == Answer(svc, urls, message)
    ensures ProcessedCount(Processor(svc, message), urls[..k + 1] + later) == k + 1
  {
    RunIgnoresSuffix(Processor(svc, message), urls, later, k);
  }

  /** Every URL before `k` was extracted in process and URL `k` stops the
      loop: its text is the answer. */
  lemma AnswerAtStop(svc: Services, urls: seq<string>, message: string, k: nat)
    requires k < |urls|
    requires forall j :: 0 <= j < k ==> ProcessUrl(svc, urls[j], message).Continue?
    requires ProcessUrl(svc, urls[k], message).Stop?
    ensures Answer(svc, urls, message) == ProcessUrl(svc, urls[k], message).text
    ensures ProcessedCount(Processor(svc, message), urls) == k + 1
  {
    StopDecides(Processor(svc, message), urls, k, "");
  }

  /** The first URL that takes a remote route ends `execute` with that
      endpoint's `response`, or the parser fallback when it is empty or
      missing; no later URL is probed. */
  lemma RemoteRouteReturnsResponse(svc: Services, urls: seq<string>, message: string, k: nat,
                                   header: Option<string>, endpoint: Endpoint, response: Option<string>)
    requires k < |urls|
    requires forall j :: 0 <= j < k ==> ProcessUrl(svc, urls[j], message).Continue?
    requires svc.head(urls[k]) == Returned(header)
    requires ChooseRoute(ContentLength(header)) == Remote(endpoint)
    requires svc.post(EndpointUrl(endpoint), urls[k]) == Returned(response)
    ensures Answer(svc, urls, message) == OrFallback(response, NoParserContent)
    ensures response.None? || response.value == "" ==> Answer(svc, urls, message) == NoParserContent
    ensures ProcessedCount(Processor(svc, message), urls) == k + 1
  {
    AnswerAtStop(svc, urls, message, k);
  }

  /** A HEAD request that throws ends `execute` with the failure text; it
      does not throw. */
  lemma ProbeFailureReturnsMessage(svc: Services, urls: seq<string>, message: string, k: nat, error: string)
    requires k < |urls|
    requires forall j :: 0 <= j < k ==> ProcessUrl(svc, urls[j], message).Continue?
    requires svc.head(urls[k]) == Threw(error)
    ensures Answer(svc, urls, message) == FailurePrefix + error
  {
    AnswerAtStop(svc, urls, message, k);
  }

  /** A remote converter that throws ends `execute` with the failure text. */
  lemma ConverterFailureReturnsMessage(svc: Services, urls: seq<string>, message: string, k: nat,
                                       header: Option<string>, endpoint: Endpoint, error: string)
    requires k < |urls|
    requires forall j :: 0 <= j < k ==> ProcessUrl(svc, urls[j], message).Continue?
    requires svc.head(urls[k]) == Returned(header)
    requires ChooseRoute(ContentLength(header)) == Remote(endpoint)
    requires svc.post(EndpointUrl(endpoint), urls[k]) == Threw(error)
    ensures Answer(svc, urls, message) == FailurePrefix + error
  {
    AnswerAtStop(svc, urls, message, k);
  }

  /** A download or in-process extraction that throws ends `execute` with
      the failure text, even after earlier documents were extracted. */
  lemma ExtractionFailureReturnsMessage(svc: Services, urls: seq<string>, message: string, k: nat,
                                        header: Option<string>, error: string)
    requires k < |urls|
    requires forall j :: 0 <= j < k ==> ProcessUrl(svc, urls[j], message).Continue?
    requires svc.head(urls[k]) == Returned(header)
    requires ChooseRoute(ContentLength(header)) == InProcess
    requires svc.download(urls[k]).Threw? ||
             svc.complete(svc.download(urls[k]).value, Prompt(message)).Threw?
    requires error == if svc.download(urls[k]).Threw? then svc.download(urls[k]).message
                      else svc.complete(svc.download(urls[k]).value, Prompt(message)).message
    ensures Answer(svc, urls, message) == FailurePrefix + error
  {
    AnswerAtStop(svc, urls, message, k);
  }

  /** When every URL is extracted in process, the answer is the last
      document's text alone, not a concatenation of them all. */
  lemma AllInProcessYieldsLast(svc: Services, urls: seq<string>, message: string)
    requires urls != []
    requires forall j :: 0 <= j < |urls| ==> ProcessUrl(svc, urls[j], message).Continue?
    ensures Answer(svc, urls, message) == ProcessUrl(svc, urls[|urls| - 1], message).text
    ensures ProcessedCount(Processor(svc, message), urls) == |urls|
  {
    RunAllContinue(Processor(svc, message), urls, "");
  }

  /** The in-process text is the model's content for the prompt, or the
      fallback when the model returns no content. */
  lemma InProcessText(svc: Services, url: string, message: string, header: Option<string>,
                      pdf: Bytes, content: Option<string>)
    requires svc.head(url) == Returned(header)
    requires ChooseRoute(ContentLength(header)) == InProcess
    requires svc.download(url) == Returned(pdf)
    requires svc.complete(pdf, Prompt(message)) == Returned(content)
    ensures ProcessUrl(svc, url, message) == Continue(OrFallback(content, NoModelContent))
    ensures content.None? || content.value == "" ==> ProcessUrl(svc, url, message) == Continue(NoModelContent)
  {
  }
}
