# omni-pdf-analyst — a Dafny model of the upload, analysis and display decisions

The application lets a user upload a PDF. An edge function (`analyze-pdf`)
extracts the text page by page, rejects documents with too little text,
forwards the text to an AI gateway, strips a fenced JSON block from the
model's reply, parses it, and answers with the analysis and a preview of the
text. The browser component `PdfUploader` checks the file name, posts the
file, picks the message to show on failure, keeps an `isProcessing` flag, and
hands the result to the page. `AnalysisDisplay` turns the loosely-typed
`analysis` object into the record it renders, numbers the key points, and
puts separators between definitions and between sections.

This project models those decisions as pure functions over immutable data:

- `wrappers.dfy` — `Option` and `Result`.
- `js_value.dfy` — `JsVal`, the JSON-shaped JavaScript values the code
  handles, with truthiness, property reads (a read on `undefined`/`null` is a
  TypeError) and `||`.
- `text.dfy` — `trim`, ASCII `toLowerCase`, `endsWith`, `join`, decimal
  rendering and substring search.
- `analysis_display.dfy` — the `analysis` normalizer, its idempotence, the
  exact condition under which rendering succeeds, the key-point badges and
  the separator layout.
- `analyze_pdf.dfy` — page-text assembly, the 50-character check, fenced
  JSON extraction, the 2000-character preview, and the request handler as a
  function from the results of its foreign calls to a status and body.
- `pdf_uploader.dfy` — file-name check, `processFile` as a list of effects
  (toasts, flag changes, the post, the callback), the flag as a state machine
  over those effects, and first-file selection.
- `end_to_end.dfy` — the handler's reply fed to the uploader, and the
  delivered analysis fed to the display.

The normalizer is modelled exactly as the display code computes it:

- A missing `pdfType` stays `undefined`; no default is substituted.
- A missing `detailedSummary` becomes `[undefined]`; any non-array value is
  wrapped into a one-element list.
- A truthy non-array list field (a string, say) is passed through by
  `x || []`, and the `.map` at src/components/AnalysisDisplay.tsx lines 96,
  117 and 137 then throws (`AnalysisDisplay.RendersIff`).
- A `null` analysis (for instance when the model replies with `null`) makes
  the first property read at src/components/AnalysisDisplay.tsx line 22
  throw, modelled as `None`.

## Model

| member | source | states |
|---|---|---|
| AnalysisDisplay.Normalize | src/components/AnalysisDisplay.tsx:21-30 | throws exactly on an undefined or null input; `pdfType` and `shortSummary` copied with no default; an array `detailedSummary` kept verbatim, anything else wrapped as one element; each list field is `[]` when falsy and unchanged when truthy, so it is always truthy |
| AnalysisDisplay.AsParagraphs | src/components/AnalysisDisplay.tsx:24-26 | an array is returned with the same elements in the same order; any other value, a string or `undefined` included, becomes the one-element list holding it |
| AnalysisDisplay.OrEmptyList | src/components/AnalysisDisplay.tsx:27-29 | a falsy value (undefined, null, "", 0, false) becomes `[]`; a truthy value is passed through unchanged |
| AnalysisDisplay.NormalizeIdempotent | src/components/AnalysisDisplay.tsx:21-30 | normalizing the object form of a normalized record gives the same record |
| AnalysisDisplay.RendersIff | src/components/AnalysisDisplay.tsx:96-147 | the record renders iff each list field of the input is falsy or an array and no definition or section element is undefined or null |
| AnalysisDisplay.KeyPointBadges | src/components/AnalysisDisplay.tsx:96-100 | one badge per key point, numbered from 1 consecutively in input order, covering 1..n |
| AnalysisDisplay.SeparatedLayout | src/components/AnalysisDisplay.tsx:117-123 | items and separators alternate: item k at position 2k, a separator between consecutive items, none after the last |
| AnalysisDisplay.SeparatorsOf | src/components/AnalysisDisplay.tsx:137-147 | n definitions or sections produce max(0, n-1) separators |
| Text.NatToStringRoundTrip | supabase/functions/analyze-pdf/index.ts:37 | the decimal page number written into a marker reads back as the page number |
| Text.TrimStart | supabase/functions/analyze-pdf/index.ts:43 | the result is a suffix, everything removed is white space, and it does not start with white space |
| Text.TrimEnd | supabase/functions/analyze-pdf/index.ts:43 | the result is a prefix, everything removed is white space, and it does not end with white space |
| Text.IndexOf | supabase/functions/analyze-pdf/index.ts:125 | the result is the leftmost occurrence at or after the start, and none means there is no occurrence there |
| AnalyzePdf.ExtractText | supabase/functions/analyze-pdf/index.ts:32-38 | the text is, for pages 1..n in increasing order, "\n\n--- PAGE i ---\n" followed by that page's items joined by single spaces |
| AnalyzePdf.AssembledExtends | supabase/functions/analyze-pdf/index.ts:33-37 | the text of the first k pages is a prefix of the whole text |
| AnalyzePdf.TrimKeepsMarkers | supabase/functions/analyze-pdf/index.ts:37-43 | trimming removes at most the two leading newlines, the last newline and the last page's text; exactly three characters when the last page is blank |
| AnalyzePdf.RejectedIffShort | supabase/functions/analyze-pdf/index.ts:43 | the text is rejected iff its trimmed length is below 50; the emptiness test adds nothing |
| AnalyzePdf.ManyPagesSufficient | supabase/functions/analyze-pdf/index.ts:37-43 | page markers count towards the threshold: any document of four or more pages passes whatever its content |
| AnalyzePdf.BlankPagesThreshold | supabase/functions/analyze-pdf/index.ts:37-43 | with every page blank, the text is rejected iff there are fewer than four pages |
| AnalyzePdf.FindFence | supabase/functions/analyze-pdf/index.ts:125-126 | a fence is found iff some "```json\n" is followed later by "\n```"; the one found has the leftmost opening and the first closing after it |
| AnalyzePdf.JsonText | supabase/functions/analyze-pdf/index.ts:124-128 | without a fence the reply is used unchanged; with one, the text is the contiguous substring between the fences |
| AnalyzePdf.FenceBodyHasNoCloser | supabase/functions/analyze-pdf/index.ts:125-127 | an extracted fence body never contains "\n```" (shortest match) |
| AnalyzePdf.Preview | supabase/functions/analyze-pdf/index.ts:136 | the preview is a prefix of the text of length min(len, 2000) followed by "...", which is appended even to short text |
| AnalyzePdf.Handle | supabase/functions/analyze-pdf/index.ts:18-150 | no `pdf` field gives 400 "No PDF file provided"; 400 iff no file or rejected text; upstream 429 and 402 map to themselves with their messages; a library failure, missing key, gateway unreachable (its `fetch` rejecting), other non-ok status, unreadable reply or parse failure gives 500 with its message; 200 iff success; a request that reaches the gateway, gets an ok status, a readable reply and a successful parse is answered 200 with the preview of the extracted text and the parsed value |
| AnalyzePdf.NoFileIgnoresEverythingElse | supabase/functions/analyze-pdf/index.ts:18-26 | without a file the reply does not depend on extraction, the key, the gateway or the parser |
| AnalyzePdf.RejectedTextStopsBeforeGateway | supabase/functions/analyze-pdf/index.ts:43-51 | rejected text gives 400 whatever the key, the gateway and the parser would do |
| PdfUploader.PdfNameIff | src/components/PdfUploader.tsx:46 | a name is accepted iff its last four characters are ".pdf" in any letter case |
| PdfUploader.PdfNameExamples | src/components/PdfUploader.tsx:46 | "A.PDF" and "notes.Pdf" are accepted; "pdf", "x.pdf.txt" and "" are rejected |
| PdfUploader.ProcessFile | src/components/PdfUploader.tsx:45-103 | a rejected name only shows the invalid-file notice; an accepted one raises the flag, posts the file, and ends by lowering the flag |
| PdfUploader.RejectedFileSendsNothing | src/components/PdfUploader.tsx:46-53 | a rejected file never sets the flag nor posts, whatever the network would do |
| PdfUploader.AcceptedFilePostedOnce | src/components/PdfUploader.tsx:55-73 | an accepted file is posted exactly once, right after the flag is raised |
| PdfUploader.Settle | src/components/PdfUploader.tsx:57-99 | a rejected `fetch` or an unreadable body shows the thrown message; an ok body that is undefined or null fails reading `success`; an ok body with truthy `success` is delivered merged with the file name and then the success notice is shown; after the post nothing changes the flag or posts again, and the last effect is always a notice |
| PdfUploader.ErrorReason | src/components/PdfUploader.tsx:75-84 | the message is the body's `error` when truthy and the fallback otherwise; reading `error` of a null body throws |
| PdfUploader.FailureMessages | src/components/PdfUploader.tsx:75-84 | a non-ok response shows `error` or "Failed to analyze PDF"; an ok one with falsy `success` shows `error` or "PDF analysis failed" |
| PdfUploader.WithFileName | src/components/PdfUploader.tsx:87 | the payload has every field of the response plus `fileName`, which is the file's name even when the response had one |
| PdfUploader.DeliversIff | src/components/PdfUploader.tsx:80-87 | the callback runs iff an ok response decodes to a value with truthy `success`, and it receives that value merged with the file name |
| PdfUploader.ProcessingFlagLifecycle | src/components/PdfUploader.tsx:55-102 | for an accepted file the flag is true from before the post until the outcome is reported, and false at the end on every path |
| PdfUploader.FirstFile | src/components/PdfUploader.tsx:30-42 | a file is chosen iff the selection is present and non-empty, and it is the first one |
| PdfUploader.OnSelection | src/components/PdfUploader.tsx:25-43 | an empty selection does nothing; otherwise the first file is processed |
| PdfUploader.OnlyFirstFileMatters | src/components/PdfUploader.tsx:30-42 | files after the first have no effect |
| EndToEnd.ReplyJson | supabase/functions/analyze-pdf/index.ts:133-149 | an error reply decodes to an object with that `error` and falsy `success`; a success reply to one with truthy `success` and the analysis |
| EndToEnd.ServerErrorShownToUser | src/components/PdfUploader.tsx:75-102 | every error the function returns is shown verbatim (an empty one as "Failed to analyze PDF") and the flag is lowered after it |
| EndToEnd.RateLimitScenario | supabase/functions/analyze-pdf/index.ts:101-106 | a 429 from the gateway ends with the rate-limit message shown and the flag cleared |
| EndToEnd.SuccessReachesDisplay | src/components/PdfUploader.tsx:80-87 | a 200 reply delivers the file name, the parsed analysis and the preview |
| EndToEnd.SampleScenario | src/components/AnalysisDisplay.tsx:21-30 | a typical analysis yields type "notes", one paragraph, two key points, no definitions, one section "Ch1", and renders |
| EndToEnd.SparseAnalysisScenario | src/components/AnalysisDisplay.tsx:24-29 | an analysis with only type and short summary gets empty lists but a detailed summary of one `undefined` paragraph |

## Left out

- PDF parsing by the PDF library (supabase/functions/analyze-pdf/index.ts:29-35): the text items of each page, or the message the library threw, are an input.
- The HTTP exchanges (`req.formData()`, the gateway call, `fetch`, `response.json()`): their results are inputs (`Request`, `Gateway`, `Exchange`).
- `JSON.parse`: an arbitrary function from text to a value or a thrown message.
- The system prompt, model name and temperature (supabase/functions/analyze-pdf/index.ts:60-94): configuration with no checkable behaviour.
- CORS headers, the OPTIONS preflight and console logging: plumbing.
- Environment variables: only "API key present or absent" is modelled; the service URL and client key are not.
- `req.formData()` failing on a body that is not a form (a 500 in the code) is not modelled; a `pdf` field that is a non-empty string rather than a file reaches extraction and fails there, which the model covers as a library failure.
- `aiResponse.text()` on the error path (supabase/functions/analyze-pdf/index.ts:98) is assumed not to throw.
- EndToEnd.ReplyJson: omits the `details` field (the error stack) of a 500 body, which the client never reads, and assumes that serializing and decoding the parsed analysis returns the same value.
- PdfUploader.ErrorReason: carries the value passed to `new Error` rather than its string form, since numbers are abstracted to truthiness.
- AnalysisDisplay.RendersIff: covers the `.map` calls and the property reads on list elements, not React's refusal of an object as a child.
- Numbers inside JSON values keep only their truthiness; HTTP statuses are natural numbers.
- Text.TrimStart / Text.TrimEnd: `trim` uses a fixed white-space set (ASCII white space, no-break space, byte-order mark, line and paragraph separators), not every Unicode space separator.
- AnalyzePdf.RejectedIffShort: lengths count Unicode characters, while `.length` at supabase/functions/analyze-pdf/index.ts:43 counts UTF-16 code units, so the 50-character threshold (here and in `AnalyzePdf.Handle`, `AnalyzePdf.ManyPagesSufficient`, `AnalyzePdf.BlankPagesThreshold`) agrees with the code only for text inside the Basic Multilingual Plane; a character outside it counts once here and twice in the code.
- AnalyzePdf.Preview: `substring(0, 2000)` at supabase/functions/analyze-pdf/index.ts:136 cuts after 2000 UTF-16 code units; the model cuts after 2000 characters, which agrees for text inside the Basic Multilingual Plane only.
- PdfUploader.PdfNameIff: `toLowerCase` is modelled for ASCII letters only; the claim is exact because only ASCII letters lower-case to `.`, `p`, `d` and `f`.
- React state, drag-over styling, the disabled input while processing, the toast UI, a throwing callback or toast, `HeroSection.tsx` and `Index.tsx` beyond reading `analysis` from the payload: presentation.
