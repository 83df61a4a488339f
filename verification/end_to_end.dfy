/**
 * The edge function, the upload component and the display put together: the
 * client decodes the function's reply, and the display receives the
 * `analysis` field of the payload the upload component delivers.
 */
module EndToEnd {
  import opened Wrappers
  import opened JsValue
  import opened AnalyzePdf
  import opened PdfUploader
  import opened AnalysisDisplay

  /** The JSON body of a reply as the client decodes it. */
  function ReplyJson(reply: Reply): (v: JsVal)
    ensures v.Obj?
    ensures reply.body.ErrorBody? ==> Prop(v, "error") == Str(reply.body.error) && !Truthy(Prop(v, "success"))
    ensures reply.body.SuccessBody? ==> Truthy(Prop(v, "success")) && Prop(v, "analysis") == reply.body.analysis
    ensures reply.body.SuccessBody? ==> Prop(v, "extractedText") == Str(reply.body.extractedText)
  {
    match reply.body
    case ErrorBody(e) => Obj(map["error" := Str(e)])
    case SuccessBody(t, a) => Obj(map["success" := Bool(true), "extractedText" := Str(t), "analysis" := a])
  }

  /** What the upload component's `fetch` sees when the function answers with `reply`. */
  function ClientExchange(reply: Reply): (r: Exchange)
    ensures r.Answered? && r.body == Success(ReplyJson(reply))
    ensures r.ok <==> 200 <= reply.status <= 299
  {
    Answered(AnalyzePdf.IsOk(reply.status), Success(ReplyJson(reply)))
  }

  /** The upload component's effects for an error reply of the function. */
  lemma ErrorReplyShown(reply: Reply, name: string)
    requires IsPdfName(name)
    requires reply.body.ErrorBody? && !AnalyzePdf.IsOk(reply.status)
    ensures var error := reply.body.error;
      var shown := if error != "" then error else RequestFailedMessage;
      ProcessFile(name, ClientExchange(reply)) ==
        [SetProcessing(true), Post(name), Toast(AnalysisFailed(Rejected(Str(shown)))), SetProcessing(false)]
  {
    var data := ReplyJson(reply);
    assert ClientExchange(reply) == Answered(false, Success(data));
    FailureMessages(name, data);
  }

  /**
   * Every error the function reports reaches the user verbatim (an empty
   * message is replaced by "Failed to analyze PDF"), and the processing flag
   * is cleared afterwards.
   */
  lemma ServerErrorShownToUser(req: Request, name: string)
    requires IsPdfName(name)
    requires Handle(req).body.ErrorBody?
    ensures var error := Handle(req).body.error;
      var shown := if error != "" then error else RequestFailedMessage;
      ProcessFile(name, ClientExchange(Handle(req))) ==
        [SetProcessing(true), Post(name), Toast(AnalysisFailed(Rejected(Str(shown)))), SetProcessing(false)]
  {
    ErrorReplyShown(Handle(req), name);
  }

  /** A rate-limited gateway ends, for the user, in the rate-limit message with the flag cleared. */
  lemma RateLimitScenario(req: Request, name: string)
    requires IsPdfName(name)
    requires ReachesGateway(req) && req.gateway.status == 429
    ensures var effects := ProcessFile(name, ClientExchange(Handle(req)));
      && Toast(AnalysisFailed(Rejected(Str(RateLimitMessage)))) in effects
      && !FlagAfter(false, effects)
  {
    var resp := Handle(req);
    RateLimitReply(req);
    ErrorReplyShown(resp, name);
    var effects := ProcessFile(name, ClientExchange(resp));
    assert effects[2] == Toast(AnalysisFailed(Rejected(Str(RateLimitMessage))));
    assert effects[|effects| - 1] == SetProcessing(false);
  }

  /**
   * A successful analysis is delivered with the file's name, the text preview
   * and the parsed analysis, which is what the display then normalizes.
   */
  lemma SuccessReachesDisplay(req: Request, name: string)
    requires IsPdfName(name)
    requires Handle(req).status == 200
    ensures var effects := ProcessFile(name, ClientExchange(Handle(req)));
      var payload := effects[2].payload;
      && effects[2].Deliver?
      && Prop(payload, "fileName") == Str(name)
      && Prop(payload, "analysis") == Handle(req).body.analysis
      && Prop(payload, "extractedText") == Str(Preview(Assembled(req.pages.value)))
  {
    var resp := Handle(req);
    var data := ReplyJson(resp);
    var exchange := ClientExchange(resp);
    assert exchange == Answered(true, Success(data));
    var settle := Settle(name, exchange);
    assert settle == [Deliver(WithFileName(data.fields, name)), Toast(Analyzed)];
    assert ProcessFile(name, exchange)[2] == settle[0];
  }

  /** The analysis returned by a typical successful upload. */
  function SampleAnalysis(): (v: JsVal) {
    Obj(map[
      "pdfType" := Str("notes"),
      "shortSummary" := Str("brief"),
      "detailedSummary" := Str("one para"),
      "keyPoints" := Arr([Str("p1"), Str("p2")]),
      "definitions" := Arr([]),
      "sections" := Arr([Obj(map["title" := Str("Ch1"), "summary" := Str("text")])])])
  }

  /**
   * A typical successful analysis: type "notes", the single detailed-summary string
   * wrapped into one paragraph, two key points, no definitions and one
   * section titled "Ch1"; the record renders.
   */
  lemma SampleScenario()
    ensures var a := Normalize(SampleAnalysis()).value;
      && a.pdfType == Str("notes")
      && a.detailedSummary == [Str("one para")]
      && a.keyPoints.Arr? && |a.keyPoints.items| == 2
      && a.definitions == Arr([])
      && a.sections.Arr? && |a.sections.items| == 1
      && Prop(a.sections.items[0], "title") == Str("Ch1")
      && Renders(a)
  {
  }

  /**
   * An analysis carrying only a type and a short summary: the missing list
   * fields become empty arrays, but the missing detailed summary becomes one
   * `undefined` paragraph rather than no paragraph.
   */
  lemma SparseAnalysisScenario()
    ensures var a := Normalize(Obj(map["pdfType" := Str("textbook"), "shortSummary" := Str("S")])).value;
      && a.pdfType == Str("textbook") && a.shortSummary == Str("S")
      && a.detailedSummary == [Undefined]
      && a.keyPoints == Arr([]) && a.definitions == Arr([]) && a.sections == Arr([])
  {
  }
}
