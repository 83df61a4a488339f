/**
 * The `analyze-pdf` edge function with its foreign calls turned into inputs:
 * page-text assembly from the text items of each page, the minimum-length
 * check, the fenced-JSON extraction from the model's reply, the preview of
 * the extracted text, and the mapping of every outcome to an HTTP status and
 * body.
 */
module AnalyzePdf {
  import opened Wrappers
  import opened JsValue
  import opened Text

  /** Fewer trimmed characters than this and the text counts as unreadable. */
  const MinTextLength: nat := 50
  /** Characters of extracted text echoed back in a successful response. */
  const PreviewLength: nat := 2000

  const FenceOpen: string := "```json\n"
  const FenceClose: string := "\n```"

  const NoPdfMessage: string := "No PDF file provided"
  const NoTextMessage: string := "ERROR: No readable text was extracted from this PDF. Please re-upload a PDF with readable text content."
  const MissingKeyMessage: string := "LOVABLE_API_KEY not configured"
  const RateLimitMessage: string := "Rate limit exceeded. Please try again in a moment."
  const CreditsMessage: string := "AI credits exhausted. Please add credits to continue."

  function GatewayErrorMessage(status: nat): (r: string)
    ensures |r| > 14 && r[..14] == "AI API error: " && r[14..] == NatToString(status)
    ensures ParseDecimal(r[14..]) == status
  {
    NatToStringRoundTrip(status);
    assert ("AI API error: " + NatToString(status))[14..] == NatToString(status);
    "AI API error: " + NatToString(status)
  }

  // ---------------------------------------------------------------- page text

  /** The header written before the text of page `i`. */
  function PageMarker(i: nat): (r: string)
    ensures |r| == 16 + |NatToString(i)|
  {
    "\n\n--- PAGE " + NatToString(i) + " ---\n"
  }

  /** The text items of one page joined by single spaces. */
  function PageText(items: seq<string>): (r: string) {
    Join(items, " ")
  }

  /** Pages `1..|pages|` in increasing order, each as its marker followed by its text. */
  function Assembled(pages: seq<seq<string>>): (r: string) {
    if |pages| == 0 then ""
    else Assembled(pages[..|pages| - 1]) + PageMarker(|pages|) + PageText(pages[|pages| - 1])
  }

  /** The extraction loop: appends one block per page, page numbers counting from 1. */
  method ExtractText(pages: seq<seq<string>>) returns (text: string)
    ensures text == Assembled(pages)
  {
    text := "";
    var i := 1;
    while i <= |pages|
      invariant 1 <= i <= |pages| + 1
      invariant text == Assembled(pages[..i - 1])
    {
      assert pages[..i][..i - 1] == pages[..i - 1];
      text := text + PageMarker(i) + PageText(pages[i - 1]);
      i := i + 1;
    }
    assert pages[..|pages|] == pages;
  }

  /** The text of the first `k` pages is a prefix of the text of all of them. */
  lemma {:induction false} AssembledExtends(pages: seq<seq<string>>, k: nat)
    requires k <= |pages|
    ensures Assembled(pages[..k]) <= Assembled(pages)
    decreases |pages| - k
  {
    if k < |pages| {
      var init := pages[..|pages| - 1];
      AssembledExtends(init, k);
      assert init[..k] == pages[..k];
    } else {
      assert pages[..k] == pages;
    }
  }

  /** Every page contributes at least its 17-character marker. */
  lemma {:induction false} AssembledLength(pages: seq<seq<string>>)
    ensures |Assembled(pages)| >= 17 * |pages|
  {
    if |pages| > 0 {
      AssembledLength(pages[..|pages| - 1]);
    }
  }

  /** The assembled text of at least one page opens with the first marker's two newlines and dash. */
  lemma AssembledStart(pages: seq<seq<string>>)
    requires |pages| >= 1
    ensures |Assembled(pages)| >= 3 && Assembled(pages)[..3] == "\n\n-"
  {
  }

  /** The assembled text ends with the last marker's closing dash and newline, then the last page's text. */
  lemma AssembledEnd(pages: seq<seq<string>>)
    requires |pages| >= 1
    ensures var text, last := Assembled(pages), PageText(pages[|pages| - 1]);
      && |text| >= 17 * |pages| + |last|
      && text[|text| - |last|..] == last
      && text[|text| - 1 - |last|] == '\n'
      && text[|text| - 2 - |last|] == '-'
  {
    var n := |pages|;
    var init := Assembled(pages[..n - 1]);
    var last := PageText(pages[n - 1]);
    AssembledLength(pages[..n - 1]);
    var x := init + "\n\n--- PAGE " + NatToString(n) + " ---";
    assert Assembled(pages) == x + "\n" + last;
  }

  /** Trimming `"\n\n" + core + "\n" + tail`, where `core` starts and ends visibly, keeps all of `core`. */
  lemma TrimAroundCore(text: string, core: string, tail: string)
    requires text == "\n\n" + core + "\n" + tail
    requires |core| > 0 && !IsWhitespace(core[0]) && !IsWhitespace(core[|core| - 1])
    ensures |Trim(text)| >= |core|
    ensures tail == "" ==> |Trim(text)| == |core|
  {
    var rest := core + ("\n" + tail);
    assert text == "\n\n" + rest;
    assert Trim(text) == TrimEnd(rest) by {
      TrimStartAfterBlank("\n\n", rest);
    }
    TrimEndKeepsPrefix(core, "\n" + tail);
    if tail == "" {
      assert rest == core + "\n";
      TrimEndBeforeBlank(core, "\n");
    }
  }

  /**
   * Trimming the assembled text removes the two newlines before the first
   * marker and, at the end, at most the newline after the last marker and the
   * last page's text.
   */
  lemma TrimKeepsMarkers(pages: seq<seq<string>>)
    requires |pages| >= 1
    ensures |Trim(Assembled(pages))| >= |Assembled(pages)| - 3 - |PageText(pages[|pages| - 1])|
    ensures PageText(pages[|pages| - 1]) == "" ==>
      |Trim(Assembled(pages))| == |Assembled(pages)| - 3
  {
    AssembledStart(pages);
    AssembledEnd(pages);
    TrimFramed(Assembled(pages), PageText(pages[|pages| - 1]));
  }

  /** The string-level core of `TrimKeepsMarkers`: a text framed as "\n\n-" ... "-\n" + tail. */
  lemma TrimFramed(text: string, tail: string)
    requires |text| >= 4 + |tail|
    requires text[..3] == "\n\n-"
    requires text[|text| - |tail|..] == tail
    requires text[|text| - 1 - |tail|] == '\n' && text[|text| - 2 - |tail|] == '-'
    ensures |Trim(text)| >= |text| - 3 - |tail|
    ensures tail == "" ==> |Trim(text)| == |text| - 3
  {
    var m := |text| - 1 - |tail|;
    var core := text[2..m];
    assert core[0] == text[2];
    assert core[|core| - 1] == text[m - 1];
    assert text == text[..2] + core + text[m..m + 1] + text[m + 1..];
    TrimAroundCore(text, core, tail);
  }

  /** The text is rejected when it is empty or shorter than 50 characters once trimmed. */
  predicate TextRejected(text: string) {
    Trim(text) == "" || |Trim(text)| < MinTextLength
  }

  /** The emptiness test is subsumed: rejection is exactly "fewer than 50 trimmed characters". */
  lemma RejectedIffShort(text: string)
    ensures TextRejected(text) <==> |Trim(text)| < MinTextLength
  {
  }

  /** The page markers alone carry any document of four or more pages past the length check. */
  lemma ManyPagesSufficient(pages: seq<seq<string>>)
    requires |pages| >= 4
    ensures !TextRejected(Assembled(pages))
  {
    var text := Assembled(pages);
    var last := PageText(pages[|pages| - 1]);
    TrimKeepsMarkers(pages);
    AssembledEnd(pages);
    assert |text| >= 17 * 4 + |last|;
    assert |Trim(text)| >= MinTextLength;
  }

  /** `n` pages that carry no text items. */
  function BlankPages(n: nat): (pages: seq<seq<string>>)
    ensures |pages| == n
    ensures forall i :: 0 <= i < n ==> pages[i] == []
  {
    seq(n, _ => [])
  }

  lemma {:induction false} BlankPagesLength(n: nat)
    requires n <= 9
    ensures |Assembled(BlankPages(n))| == 17 * n
  {
    if n > 0 {
      BlankPagesLength(n - 1);
      assert BlankPages(n)[..n - 1] == BlankPages(n - 1);
    }
  }

  /** A document whose pages carry no text is rejected with one to three pages and accepted with four or more. */
  lemma BlankPagesThreshold(n: nat)
    ensures TextRejected(Assembled(BlankPages(n))) <==> n < 4
  {
    if n >= 4 {
      ManyPagesSufficient(BlankPages(n));
    } else if n > 0 {
      BlankPagesLength(n);
      TrimKeepsMarkers(BlankPages(n));
    }
  }

  // ------------------------------------------------------------- fenced JSON

  /** An opening fence at `open` and a closing fence at `close`; the body lies between them. */
  datatype Fence = Fence(open: nat, close: nat) {
    function BodyStart(): (r: nat) {
      open + |FenceOpen|
    }
  }

  /** The regular expression matches with the opening fence at `p` and the closing fence at `q`. */
  predicate FenceMatch(s: string, p: int, q: int) {
    At(s, FenceOpen, p) && p + |FenceOpen| <= q && At(s, FenceClose, q)
  }

  /**
   * The match of the regular expression `/```json\n([\s\S]*?)\n```/`: the
   * leftmost opening fence that has a closing fence after it, and the first
   * closing fence after that opening, i.e. the leftmost-shortest match.
   */
  function FindFence(s: string): (r: Option<Fence>)
    ensures r.None? <==> forall p, q :: !FenceMatch(s, p, q)
    ensures r.Some? ==> FenceMatch(s, r.value.open, r.value.close)
    ensures r.Some? ==> forall p, q :: FenceMatch(s, p, q) ==> r.value.open <= p
    ensures r.Some? ==> forall q :: FenceMatch(s, r.value.open, q) ==> r.value.close <= q
  {
    match IndexOf(s, FenceOpen, 0)
    case None => None
    case Some(p) =>
      match IndexOf(s, FenceClose, p + |FenceOpen|)
      case None => None
      case Some(q) =>
        assert FenceMatch(s, p, q);
        Some(Fence(p, q))
  }

  /** The text handed to `JSON.parse`: the fence body when the reply has a fence, the whole reply otherwise. */
  function JsonText(reply: string): (r: string)
    ensures FindFence(reply).None? ==> r == reply
    ensures FindFence(reply).Some? ==>
      var f := FindFence(reply).value;
      f.BodyStart() <= f.close <= |reply| && reply == reply[..f.BodyStart()] + r + reply[f.close..]
  {
    match FindFence(reply)
    case None => reply
    case Some(f) => reply[f.BodyStart()..f.close]
  }

  /** A fence body never contains a closing fence itself (the match is the shortest one). */
  lemma FenceBodyHasNoCloser(reply: string)
    requires FindFence(reply).Some?
    ensures forall j :: !At(JsonText(reply), FenceClose, j)
  {
    var f := FindFence(reply).value;
    var body := JsonText(reply);
    forall j | At(body, FenceClose, j)
      ensures false
    {
      var q := f.BodyStart() + j;
      assert reply[q..q + |FenceClose|] == body[j..j + |FenceClose|];
      assert FenceMatch(reply, f.open, q);
    }
  }

  // ----------------------------------------------------------------- preview

  /** `text.substring(0, 2000) + '...'`. */
  function Preview(text: string): (r: string)
    ensures |r| == (if |text| < PreviewLength then |text| else PreviewLength) + 3
    ensures r[..|r| - 3] <= text && r[|r| - 3..] == "..."
    ensures |text| <= PreviewLength ==> r == text + "..."
  {
    (if |text| < PreviewLength then text else text[..PreviewLength]) + "..."
  }

  // ----------------------------------------------------------------- handler

  /**
   * What the gateway answered: its status, and `choices[0].message.content`
   * or the message thrown reading it. A gateway `fetch` that rejects
   * outright (no response at all) is written as an ok status whose content
   * is `Failure` with the thrown message: both end in a 500 carrying that
   * message.
   */
  datatype Gateway = Gateway(status: nat, content: Result<string, string>)

  /**
   * One POST to the function, with the results of the foreign calls as
   * inputs: whether the form's `pdf` field is present (and truthy), the text items of each page
   * (or the message the PDF library threw), whether the API key is set, the
   * gateway's answer, and `JSON.parse` (a value, or the message it threw).
   */
  datatype Request = Request(
    hasPdf: bool,
    pages: Result<seq<seq<string>>, string>,
    apiKeyPresent: bool,
    gateway: Gateway,
    parse: string -> Result<JsVal, string>)

  datatype Body =
    | ErrorBody(error: string)
    | SuccessBody(extractedText: string, analysis: JsVal)

  datatype Reply = Reply(status: nat, body: Body)

  /** `response.ok`. */
  predicate IsOk(status: nat) {
    200 <= status <= 299
  }

  /** The request reaches the gateway: a file, readable pages, enough text, and a key. */
  predicate ReachesGateway(req: Request) {
    req.hasPdf && req.pages.Success? && !TextRejected(Assembled(req.pages.value)) && req.apiKeyPresent
  }

  /** The function's reply to a request. */
  function Handle(req: Request): (resp: Reply)
    ensures !req.hasPdf ==> resp == Reply(400, ErrorBody(NoPdfMessage))
    ensures resp.status in {200, 400, 402, 429, 500}
    ensures resp.status == 200 <==> resp.body.SuccessBody?
    ensures resp.status == 400 <==>
      !req.hasPdf || (req.pages.Success? && TextRejected(Assembled(req.pages.value)))
    ensures resp.status == 429 <==> ReachesGateway(req) && req.gateway.status == 429
    ensures resp.status == 402 <==> ReachesGateway(req) && req.gateway.status == 402
    ensures resp.status == 429 ==> resp.body == ErrorBody(RateLimitMessage)
    ensures resp.status == 402 ==> resp.body == ErrorBody(CreditsMessage)
    ensures req.hasPdf && req.pages.Failure? ==> resp == Reply(500, ErrorBody(req.pages.error))
    ensures req.hasPdf && req.pages.Success? && !TextRejected(Assembled(req.pages.value)) && !req.apiKeyPresent ==>
      resp == Reply(500, ErrorBody(MissingKeyMessage))
    ensures ReachesGateway(req) && !IsOk(req.gateway.status) && req.gateway.status !in {402, 429} ==>
      resp == Reply(500, ErrorBody(GatewayErrorMessage(req.gateway.status)))
    ensures ReachesGateway(req) && IsOk(req.gateway.status) && req.gateway.content.Failure? ==>
      resp == Reply(500, ErrorBody(req.gateway.content.error))
    ensures
      && ReachesGateway(req) && IsOk(req.gateway.status) && req.gateway.content.Success?
      && req.parse(JsonText(req.gateway.content.value)).Failure?
      ==> resp == Reply(500, ErrorBody(req.parse(JsonText(req.gateway.content.value)).error))
    ensures
      && ReachesGateway(req) && IsOk(req.gateway.status) && req.gateway.content.Success?
      && req.parse(JsonText(req.gateway.content.value)).Success?
      ==> resp == Reply(200, SuccessBody(
            Preview(Assembled(req.pages.value)),
            req.parse(JsonText(req.gateway.content.value)).value))
    ensures resp.status == 200 ==>
      && ReachesGateway(req) && IsOk(req.gateway.status) && req.gateway.content.Success?
      && req.parse(JsonText(req.gateway.content.value)) == Success(resp.body.analysis)
      && resp.body.extractedText == Preview(Assembled(req.pages.value))
  {
    if !req.hasPdf then Reply(400, ErrorBody(NoPdfMessage))
    else match req.pages
      case Failure(thrown) => Reply(500, ErrorBody(thrown))
      case Success(pages) =>
        var text := Assembled(pages);
        if TextRejected(text) then Reply(400, ErrorBody(NoTextMessage))
        else if !req.apiKeyPresent then Reply(500, ErrorBody(MissingKeyMessage))
        else if !IsOk(req.gateway.status) then
          if req.gateway.status == 429 then Reply(429, ErrorBody(RateLimitMessage))
          else if req.gateway.status == 402 then Reply(402, ErrorBody(CreditsMessage))
          else Reply(500, ErrorBody(GatewayErrorMessage(req.gateway.status)))
        else match req.gateway.content
          case Failure(thrown) => Reply(500, ErrorBody(thrown))
          case Success(reply) =>
            match req.parse(JsonText(reply))
            case Failure(thrown) => Reply(500, ErrorBody(thrown))
            case Success(analysis) => Reply(200, SuccessBody(Preview(text), analysis))
  }

  /** A gateway answering 429 to a request that reaches it gives the rate-limit reply. */
  lemma RateLimitReply(req: Request)
    requires ReachesGateway(req) && req.gateway.status == 429
    ensures Handle(req) == Reply(429, ErrorBody(RateLimitMessage))
  {
  }

  /** Without a `pdf` field the reply depends on nothing else: no extraction, no gateway call, no parse. */
  lemma NoFileIgnoresEverythingElse(req: Request, other: Request)
    requires !req.hasPdf && !other.hasPdf
    ensures Handle(req) == Handle(other)
  {
  }

  /** When the text is rejected, the key, the gateway and the parser play no part. */
  lemma RejectedTextStopsBeforeGateway(req: Request, other: Request)
    requires req.hasPdf && req.pages.Success? && TextRejected(Assembled(req.pages.value))
    requires other.hasPdf && other.pages == req.pages
    ensures Handle(req) == Handle(other) == Reply(400, ErrorBody(NoTextMessage))
  {
  }
}
