/**
 * The display side: the `analysis` record that `AnalysisDisplay` builds from
 * the loosely-typed `analysisData` it receives, and the index logic of its
 * render loops (key-point numbering and separators between definitions and
 * between sections).
 */
module AnalysisDisplay {
  import opened Wrappers
  import opened JsValue

  /**
   * The record rendered by the component. Only `detailedSummary` is
   * guaranteed to be an array; the three other list fields hold whatever
   * `x || []` produced, which is any truthy value.
   */
  datatype Analysis = Analysis(
    pdfType: JsVal,
    shortSummary: JsVal,
    detailedSummary: seq<JsVal>,
    keyPoints: JsVal,
    definitions: JsVal,
    sections: JsVal)

  /** `Array.isArray(v) ? v : [v]`. */
  function AsParagraphs(v: JsVal): (r: seq<JsVal>)
    ensures v.Arr? ==> r == v.items
    ensures !v.Arr? ==> r == [v]
  {
    if v.Arr? then v.items else [v]
  }

  /** `v || []`. */
  function OrEmptyList(v: JsVal): (r: JsVal)
    ensures Truthy(r)
    ensures Truthy(v) ==> r == v
    ensures !Truthy(v) ==> r == Arr([])
  {
    Or(v, Arr([]))
  }

  /**
   * Builds the displayed record from `analysisData`. Reading the first field
   * of an undefined or null `analysisData` throws, which is `None`.
   */
  function Normalize(data: JsVal): (r: Option<Analysis>)
    ensures r.None? <==> IsNullish(data)
    ensures r.Some? ==> r.value.pdfType == Prop(data, "pdfType")
    ensures r.Some? ==> r.value.shortSummary == Prop(data, "shortSummary")
    ensures r.Some? && Prop(data, "detailedSummary").Arr? ==>
      r.value.detailedSummary == Prop(data, "detailedSummary").items
    ensures r.Some? && !Prop(data, "detailedSummary").Arr? ==>
      r.value.detailedSummary == [Prop(data, "detailedSummary")]
    ensures r.Some? ==> Truthy(r.value.keyPoints) && Truthy(r.value.definitions) && Truthy(r.value.sections)
    ensures r.Some? ==> (Truthy(Prop(data, "keyPoints")) <==> r.value.keyPoints == Prop(data, "keyPoints"))
    ensures r.Some? ==> (Truthy(Prop(data, "definitions")) <==> r.value.definitions == Prop(data, "definitions"))
    ensures r.Some? ==> (Truthy(Prop(data, "sections")) <==> r.value.sections == Prop(data, "sections"))
    ensures r.Some? && !Truthy(Prop(data, "keyPoints")) ==> r.value.keyPoints == Arr([])
    ensures r.Some? && !Truthy(Prop(data, "definitions")) ==> r.value.definitions == Arr([])
    ensures r.Some? && !Truthy(Prop(data, "sections")) ==> r.value.sections == Arr([])
  {
    if IsNullish(data) then None
    else Some(Analysis(
      Prop(data, "pdfType"),
      Prop(data, "shortSummary"),
      AsParagraphs(Prop(data, "detailedSummary")),
      OrEmptyList(Prop(data, "keyPoints")),
      OrEmptyList(Prop(data, "definitions")),
      OrEmptyList(Prop(data, "sections"))))
  }

  /** The record as a JavaScript object, so that it can be fed back in. */
  function ToJs(a: Analysis): (v: JsVal)
    ensures v.Obj? && !IsNullish(v)
  {
    Obj(map[
      "pdfType" := a.pdfType,
      "shortSummary" := a.shortSummary,
      "detailedSummary" := Arr(a.detailedSummary),
      "keyPoints" := a.keyPoints,
      "definitions" := a.definitions,
      "sections" := a.sections])
  }

  /** Normalizing an already normalized record gives the same record back. */
  lemma NormalizeIdempotent(data: JsVal)
    requires Normalize(data).Some?
    ensures Normalize(ToJs(Normalize(data).value)) == Normalize(data)
  {
  }

  /**
   * `list.map(...)` in the render code succeeds only on an array; on any other
   * truthy value `map` is not a function and rendering throws.
   */
  predicate Mappable(v: JsVal) {
    v.Arr?
  }

  /** `item.term` / `section.title` reads succeed on every element. */
  predicate NoNullishItem(items: seq<JsVal>) {
    forall i :: 0 <= i < |items| ==> !IsNullish(items[i])
  }

  /**
   * Rendering the record gets past every `.map` call and every property read
   * on a list element (lines 79, 96, 117-120, 137-143).
   */
  predicate Renders(a: Analysis) {
    && Mappable(a.keyPoints)
    && Mappable(a.definitions) && NoNullishItem(a.definitions.items)
    && Mappable(a.sections) && NoNullishItem(a.sections.items)
  }

  /** A list field the render loop accepts: falsy, or an array (of non-nullish elements when `elements` is set). */
  predicate ListFieldRenders(v: JsVal, elements: bool) {
    !Truthy(v) || (v.Arr? && (elements ==> NoNullishItem(v.items)))
  }

  /**
   * The record renders exactly when each list field of the input is falsy or
   * an array, and the definition and section arrays hold no undefined or null
   * element. A truthy non-array (a string, say) is passed through and breaks
   * rendering.
   */
  lemma RendersIff(data: JsVal)
    requires Normalize(data).Some?
    ensures Renders(Normalize(data).value) <==>
      && ListFieldRenders(Prop(data, "keyPoints"), false)
      && ListFieldRenders(Prop(data, "definitions"), true)
      && ListFieldRenders(Prop(data, "sections"), true)
  {
  }

  /**
   * The badges of the key-point list, one per point: `idx + 1` for the point
   * at index `idx`.
   */
  method KeyPointBadges(points: seq<JsVal>) returns (badges: seq<nat>)
    ensures |badges| == |points|
    ensures |points| > 0 ==> badges[0] == 1 && badges[|badges| - 1] == |points|
    ensures forall i :: 0 <= i < |badges| - 1 ==> badges[i + 1] == badges[i] + 1
    ensures forall k :: 1 <= k <= |points| ==> k in badges
  {
    badges := [];
    var idx := 0;
    while idx < |points|
      invariant 0 <= idx <= |points|
      invariant |badges| == idx
      invariant forall i :: 0 <= i < idx ==> badges[i] == i + 1
    {
      badges := badges + [idx + 1];
      idx := idx + 1;
    }
    forall k | 1 <= k <= |points|
      ensures k in badges
    {
      assert badges[k - 1] == k;
    }
  }

  /** One rendered child of the definitions or sections list. */
  datatype Node = Item(index: nat) | Separator

  /**
   * The children of a list of `n` definitions or sections: each item,
   * followed by a separator when `idx < length - 1`.
   */
  method SeparatedLayout(n: nat) returns (nodes: seq<Node>)
    ensures |nodes| == if n == 0 then 0 else 2 * n - 1
    ensures forall j :: 0 <= j < |nodes| ==> nodes[j] == if j % 2 == 0 then Item(j / 2) else Separator
  {
    nodes := [];
    var idx := 0;
    while idx < n
      invariant 0 <= idx <= n
      invariant |nodes| == if idx == 0 then 0 else if idx < n then 2 * idx else 2 * idx - 1
      invariant forall j :: 0 <= j < |nodes| ==> nodes[j] == if j % 2 == 0 then Item(j / 2) else Separator
    {
      nodes := nodes + [Item(idx)];
      if idx < n - 1 {
        nodes := nodes + [Separator];
      }
      idx := idx + 1;
    }
  }

  /** The number of separators among `nodes`. */
  function SeparatorCount(nodes: seq<Node>): (r: nat)
    ensures r <= |nodes|
  {
    if |nodes| == 0 then 0
    else SeparatorCount(nodes[..|nodes| - 1]) + (if nodes[|nodes| - 1].Separator? then 1 else 0)
  }

  /** In a sequence alternating items and separators, every second node is a separator. */
  lemma {:induction false} AlternatingSeparatorCount(nodes: seq<Node>)
    requires forall j :: 0 <= j < |nodes| ==> (nodes[j].Separator? <==> j % 2 == 1)
    ensures SeparatorCount(nodes) == |nodes| / 2
  {
    if |nodes| > 0 {
      AlternatingSeparatorCount(nodes[..|nodes| - 1]);
    }
  }

  /** A list of `n` definitions or sections shows `max(0, n - 1)` separators. */
  method SeparatorsOf(n: nat) returns (count: nat)
    ensures count == if n == 0 then 0 else n - 1
  {
    var nodes := SeparatedLayout(n);
    AlternatingSeparatorCount(nodes);
    count := SeparatorCount(nodes);
  }
}
