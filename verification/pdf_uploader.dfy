/**
 * The upload component's decisions: which file of a selection is processed,
 * whether its name is accepted, what request is sent, which message the user
 * sees on failure, what the success callback receives, and how the
 * `isProcessing` flag moves around the request.
 */
module PdfUploader {
  import opened Wrappers
  import opened JsValue
  import opened Text

  const PdfSuffix: string := ".pdf"
  const RequestFailedMessage: string := "Failed to analyze PDF"
  const AnalysisFailedMessage: string := "PDF analysis failed"

  /** `name.toLowerCase().endsWith('.pdf')`. */
  predicate IsPdfName(name: string) {
    EndsWith(ToLowerAscii(name), PdfSuffix)
  }

  /** A name is accepted exactly when its last four characters spell ".pdf" in any mix of cases. */
  lemma PdfNameIff(name: string)
    ensures IsPdfName(name) <==>
      && |name| >= 4
      && name[|name| - 4] == '.'
      && name[|name| - 3] in {'p', 'P'}
      && name[|name| - 2] in {'d', 'D'}
      && name[|name| - 1] in {'f', 'F'}
  {
  }

  lemma PdfNameExamples()
    ensures IsPdfName("A.PDF") && IsPdfName("notes.Pdf")
    ensures !IsPdfName("pdf") && !IsPdfName("x.pdf.txt") && !IsPdfName("")
  {
    PdfNameIff("A.PDF");
    PdfNameIff("notes.Pdf");
    PdfNameIff("pdf");
    PdfNameIff("x.pdf.txt");
  }

  /**
   * How the `fetch` call ended: it rejected with a message, or a response
   * arrived with its `ok` flag and either the decoded JSON body or the
   * message `response.json()` threw.
   */
  datatype Exchange =
    | NetworkFailure(message: string)
    | Answered(ok: bool, body: Result<JsVal, string>)

  /**
   * Why an analysis failed, as shown in the toast: a message thrown by a
   * foreign call, a property read on an undefined or null body, or the value
   * handed to `new Error(...)` (shown through its string form).
   */
  datatype Reason =
    | Raised(message: string)
    | NullRead(key: string)
    | Rejected(value: JsVal)

  datatype Notice = InvalidFile | Analyzed | AnalysisFailed(reason: Reason)

  /** The observable effects of `processFile`, in the order they happen. */
  datatype Effect =
    | Toast(notice: Notice)
    | SetProcessing(on: bool)
    | Post(fileName: string)
    | Deliver(payload: JsVal)

  /** `body.error || fallback`, the argument to `new Error`; reading `error` on an undefined or null body throws. */
  function ErrorReason(body: JsVal, fallback: string): (r: Reason)
    requires fallback != ""
    ensures IsNullish(body) <==> r == NullRead("error")
    ensures !IsNullish(body) ==> r.Rejected? && Truthy(r.value)
    ensures !IsNullish(body) && Truthy(Prop(body, "error")) ==> r == Rejected(Prop(body, "error"))
    ensures !IsNullish(body) && !Truthy(Prop(body, "error")) ==> r == Rejected(Str(fallback))
  {
    match Get(body, "error")
    case None => NullRead("error")
    case Some(e) => Rejected(Or(e, Str(fallback)))
  }

  /** `{ ...data, fileName: name }` for an object `data`. */
  function WithFileName(data: map<string, JsVal>, name: string): (r: JsVal)
    ensures r.Obj? && r.fields.Keys == data.Keys + {"fileName"}
    ensures r.fields["fileName"] == Str(name)
    ensures forall k :: k in data && k != "fileName" ==> r.fields[k] == data[k]
  {
    Obj(data["fileName" := Str(name)])
  }

  /** What happens once the request has been sent, up to the `finally` block. */
  function Settle(name: string, exchange: Exchange): (effects: seq<Effect>)
    ensures |effects| >= 1
    ensures forall i :: 0 <= i < |effects| ==> !effects[i].SetProcessing? && !effects[i].Post?
    ensures effects[|effects| - 1].Toast?
    ensures exchange.NetworkFailure? ==> effects == [Toast(AnalysisFailed(Raised(exchange.message)))]
    ensures exchange.Answered? && exchange.body.Failure? ==>
      effects == [Toast(AnalysisFailed(Raised(exchange.body.error)))]
    ensures exchange.Answered? && exchange.ok && exchange.body.Success? && IsNullish(exchange.body.value) ==>
      effects == [Toast(AnalysisFailed(NullRead("success")))]
    ensures
      && exchange.Answered? && exchange.ok && exchange.body.Success?
      && !IsNullish(exchange.body.value) && Truthy(Prop(exchange.body.value, "success"))
      ==> (exchange.body.value.Obj? &&
           effects == [Deliver(WithFileName(exchange.body.value.fields, name)), Toast(Analyzed)])
  {
    match exchange
    case NetworkFailure(m) => [Toast(AnalysisFailed(Raised(m)))]
    case Answered(ok, body) =>
      match body
      case Failure(m) => [Toast(AnalysisFailed(Raised(m)))]
      case Success(data) =>
        if !ok then [Toast(AnalysisFailed(ErrorReason(data, RequestFailedMessage)))]
        else match Get(data, "success")
          case None => [Toast(AnalysisFailed(NullRead("success")))]
          case Some(success) =>
            if !Truthy(success) then [Toast(AnalysisFailed(ErrorReason(data, AnalysisFailedMessage)))]
            else [Deliver(WithFileName(data.fields, name)), Toast(Analyzed)]
  }

  /** `processFile(file)` for a file called `name`, given how the request would end. */
  function ProcessFile(name: string, exchange: Exchange): (effects: seq<Effect>)
    ensures !IsPdfName(name) ==> effects == [Toast(InvalidFile)]
    ensures IsPdfName(name) ==>
      && |effects| >= 4
      && effects[0] == SetProcessing(true)
      && effects[1] == Post(name)
      && effects[|effects| - 1] == SetProcessing(false)
  {
    if !IsPdfName(name) then [Toast(InvalidFile)]
    else [SetProcessing(true), Post(name)] + Settle(name, exchange) + [SetProcessing(false)]
  }

  /** A rejected file issues no request and never touches the flag, whatever the network would have done. */
  lemma RejectedFileSendsNothing(name: string, exchange: Exchange, other: Exchange)
    requires !IsPdfName(name)
    ensures ProcessFile(name, exchange) == ProcessFile(name, other)
    ensures forall i :: 0 <= i < |ProcessFile(name, exchange)| ==>
      !ProcessFile(name, exchange)[i].Post? && !ProcessFile(name, exchange)[i].SetProcessing?
  {
  }

  /** An accepted file is posted exactly once, and the post comes before any outcome is reported. */
  lemma AcceptedFilePostedOnce(name: string, exchange: Exchange)
    requires IsPdfName(name)
    ensures var effects := ProcessFile(name, exchange);
      forall i :: 0 <= i < |effects| ==> (effects[i].Post? <==> i == 1)
  {
  }

  /**
   * The failure message follows the response: a non-ok response shows its
   * `error` or "Failed to analyze PDF"; an ok response whose `success` is
   * falsy shows its `error` or "PDF analysis failed".
   */
  lemma FailureMessages(name: string, data: JsVal)
    requires !IsNullish(data)
    ensures Settle(name, Answered(false, Success(data))) ==
      [Toast(AnalysisFailed(Rejected(Or(Prop(data, "error"), Str(RequestFailedMessage)))))]
    ensures !Truthy(Prop(data, "success")) ==>
      Settle(name, Answered(true, Success(data))) ==
        [Toast(AnalysisFailed(Rejected(Or(Prop(data, "error"), Str(AnalysisFailedMessage)))))]
  {
  }

  /**
   * The callback runs exactly when an ok response decodes to a value whose
   * `success` is truthy, and then it receives every field of that value with
   * `fileName` set to the file's name.
   */
  lemma DeliversIff(name: string, exchange: Exchange)
    ensures var effects := Settle(name, exchange);
      (exists i :: 0 <= i < |effects| && effects[i].Deliver?) <==>
        && exchange.Answered? && exchange.ok && exchange.body.Success?
        && !IsNullish(exchange.body.value) && Truthy(Prop(exchange.body.value, "success"))
    ensures var effects := Settle(name, exchange);
      forall i :: 0 <= i < |effects| && effects[i].Deliver? ==>
        && exchange.body.value.Obj?
        && effects[i].payload == WithFileName(exchange.body.value.fields, name)
  {
    var effects := Settle(name, exchange);
    if exchange.Answered? && exchange.ok && exchange.body.Success? && !IsNullish(exchange.body.value)
      && Truthy(Prop(exchange.body.value, "success")) {
      assert effects[0].Deliver?;
    }
  }

  // ------------------------------------------------------ the processing flag

  /** The flag after one effect. */
  function Step(on: bool, e: Effect): (r: bool) {
    if e.SetProcessing? then e.on else on
  }

  /** The flag after a run of effects, starting from `on`. */
  function FlagAfter(on: bool, effects: seq<Effect>): (r: bool) {
    if |effects| == 0 then on else Step(FlagAfter(on, effects[..|effects| - 1]), effects[|effects| - 1])
  }

  /** Effects that do not set the flag leave it as it was. */
  lemma {:induction false} FlagUntouched(on: bool, effects: seq<Effect>)
    requires forall i :: 0 <= i < |effects| ==> !effects[i].SetProcessing?
    ensures FlagAfter(on, effects) == on
  {
    if |effects| > 0 {
      FlagUntouched(on, effects[..|effects| - 1]);
    }
  }

  /**
   * For an accepted file the flag is raised before the request is posted,
   * stays raised while the request and its outcome are handled, and is
   * lowered again on every path: success, thrown error and failed response.
   */
  lemma ProcessingFlagLifecycle(name: string, exchange: Exchange, on: bool)
    requires IsPdfName(name)
    ensures var effects := ProcessFile(name, exchange);
      && (forall k :: 1 <= k < |effects| ==> FlagAfter(on, effects[..k]))
      && !FlagAfter(on, effects)
  {
    var effects := ProcessFile(name, exchange);
    var settle := Settle(name, exchange);
    forall k | 1 <= k < |effects|
      ensures FlagAfter(on, effects[..k])
    {
      if k >= 2 {
        var done := effects[..k][2..];
        assert done == settle[..k - 2];
        FlagUntouched(FlagAfter(on, effects[..2]), done);
        FlagPrefix(on, effects[..k], 2);
        assert effects[..k][..2] == effects[..2];
        assert effects[..2][..1] == effects[..1];
        assert effects[..1][..0] == [];
      } else {
        assert effects[..1][..0] == [];
      }
    }
  }

  /** The flag after a run is the flag after its first `k` effects carried through the rest. */
  lemma {:induction false} FlagPrefix(on: bool, effects: seq<Effect>, k: nat)
    requires k <= |effects|
    ensures FlagAfter(on, effects) == FlagAfter(FlagAfter(on, effects[..k]), effects[k..])
    decreases |effects|
  {
    if |effects| == k {
      assert effects[..k] == effects;
      assert effects[k..] == [];
    } else {
      var init := effects[..|effects| - 1];
      FlagPrefix(on, init, k);
      assert init[..k] == effects[..k];
      assert effects[k..][..|effects[k..]| - 1] == init[k..];
    }
  }

  // ------------------------------------------------------------ file choice

  /** `files[0]`, or `files?.[0]` when the list itself may be missing. */
  function FirstFile(files: Option<seq<string>>): (r: Option<string>)
    ensures r.Some? <==> files.Some? && |files.value| > 0
    ensures r.Some? ==> r.value == files.value[0]
  {
    match files
    case Some(names) => if |names| > 0 then Some(names[0]) else None
    case None => None
  }

  /** `handleDrop` / `handleFileInput`: process the first file of the selection, if any. */
  function OnSelection(files: Option<seq<string>>, exchange: Exchange): (effects: seq<Effect>)
    ensures FirstFile(files).None? ==> effects == []
    ensures FirstFile(files).Some? ==> effects == ProcessFile(files.value[0], exchange)
  {
    match FirstFile(files)
    case None => []
    case Some(name) => ProcessFile(name, exchange)
  }

  /** Files after the first play no part. */
  lemma OnlyFirstFileMatters(first: string, rest: seq<string>, exchange: Exchange)
    ensures OnSelection(Some([first] + rest), exchange) == OnSelection(Some([first]), exchange)
  {
  }
}
