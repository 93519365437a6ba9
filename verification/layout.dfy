/**
 * Step 1 of the pipeline (`step1_paddle.py`): per-page aggregation of layout detections
 * into manifest elements, the pixel-to-point rectangle mapping used to clip native PDF
 * text, the page-skipping rasterisation loop, the order-preserving fan-in of per-page
 * worker results, the worker-count default and the title count of the summary.
 *
 * The layout detector, the rasteriser and the PDF text layer are foreign; they enter as
 * values (`Detection`, `PdfPage.rasterizes`, `Geometry`) and a function (`PdfPage.clip`)
 * supplied by the caller. The worker pool is modelled as an order-preserving map.
 */
module Layout {
  import opened Optional
  import opened Text
  import opened Seqs
  import StableSort

  /** A region reported by the detector (`labelName` is the key `label`); a missing key is `None`. */
  datatype Box = Box(labelName: Option<String>, score: real, coordinate: Option<seq<real>>)

  /** One entry of a page's `elements`; `kind` is the JSON key `type`. */
  datatype Element = Element(id: nat, kind: String, confidence: real, text: String, coordinates: seq<real>)

  /** One entry of the manifest's `pages`; `failed` stands for the `error` key. */
  datatype PageResult = PageResult(pageNumber: int, elements: seq<Element>, counts: map<String, nat>, failed: bool)

  /** `page.rect` in points and the pixmap size in pixels at the working resolution. */
  datatype Geometry = Geometry(pageWidth: real, pageHeight: real, pixWidth: real, pixHeight: real)

  datatype Rect = Rect(x0: real, y0: real, x1: real, y1: real)

  /**
   * One PDF page as the pipeline sees it: whether it rasterises, its geometry (`None` when
   * loading the page or its pixmap raises) and its native text inside a rectangle (`None`
   * when `get_text` raises or yields nothing).
   */
  datatype PdfPage = PdfPage(rasterizes: bool, geometry: Option<Geometry>, clip: Rect -> Option<String>)

  /** The outcome of one `predict` call: the `boxes` of each result and the seconds it took. */
  datatype Detection = Detection(outputs: seq<seq<Box>>, seconds: real)

  /** The labels whose text is pulled from the PDF. */
  const TextualKinds: set<String> := {"doc_title", "paragraph_title", "text"}

  const DefaultCoordinates: seq<real> := [0.0, 0.0, 0.0, 0.0]

  /** Upper bound on the default number of workers. */
  const WorkerCap: int := 4

  // ---------------------------------------------------------------------------
  // Pixel-to-point mapping and text extraction

  /**
   * The clip rectangle: the bbox scaled by `pageWidth / pixWidth` on x and
   * `pageHeight / pixHeight` on y. `None` stands for the exceptions of the source: a
   * zero-sized pixmap (division by zero) or a bbox that does not unpack into four values.
   */
  function ScaleRect(g: Geometry, bbox: seq<real>): (r: Option<Rect>)
    ensures r.Some? <==> g.pixWidth != 0.0 && g.pixHeight != 0.0 && |bbox| == 4
    ensures r.Some? ==>
      && r.value.x0 * g.pixWidth == bbox[0] * g.pageWidth
      && r.value.y0 * g.pixHeight == bbox[1] * g.pageHeight
      && r.value.x1 * g.pixWidth == bbox[2] * g.pageWidth
      && r.value.y1 * g.pixHeight == bbox[3] * g.pageHeight
  {
    if g.pixWidth == 0.0 || g.pixHeight == 0.0 || |bbox| != 4 then None
    else
      var sx := g.pageWidth / g.pixWidth;
      var sy := g.pageHeight / g.pixHeight;
      Some(Rect(bbox[0] * sx, bbox[1] * sy, bbox[2] * sx, bbox[3] * sy))
  }

  /** When the pixmap has the page's size in points, the clip rectangle is the bbox itself. */
  lemma ScaleRectUnit(g: Geometry, bbox: seq<real>)
    requires g.pixWidth == g.pageWidth && g.pixHeight == g.pageHeight
    requires g.pixWidth != 0.0 && g.pixHeight != 0.0
    requires |bbox| == 4
    ensures ScaleRect(g, bbox) == Some(Rect(bbox[0], bbox[1], bbox[2], bbox[3]))
  {
    var sx := g.pageWidth / g.pixWidth;
    var sy := g.pageHeight / g.pixHeight;
    assert sx == 1.0 && sy == 1.0;
    assert !(g.pixWidth == 0.0 || g.pixHeight == 0.0 || |bbox| != 4);
    var r := ScaleRect(g, bbox).value;
    assert r.x0 == bbox[0] * sx == bbox[0];
    assert r.y0 == bbox[1] * sy == bbox[1];
    assert r.x1 == bbox[2] * sx == bbox[2];
    assert r.y1 == bbox[3] * sy == bbox[3];
  }

  /** The mapping is invertible: scaling the rectangle back to pixels recovers the bbox. */
  lemma ScaleRectInverse(g: Geometry, bbox: seq<real>)
    requires g.pixWidth != 0.0 && g.pixHeight != 0.0 && g.pageWidth != 0.0 && g.pageHeight != 0.0
    requires |bbox| == 4
    ensures var r := ScaleRect(g, bbox).value;
      && r.x0 * (g.pixWidth / g.pageWidth) == bbox[0]
      && r.y0 * (g.pixHeight / g.pageHeight) == bbox[1]
      && r.x1 * (g.pixWidth / g.pageWidth) == bbox[2]
      && r.y1 * (g.pixHeight / g.pageHeight) == bbox[3]
  {
    var r := ScaleRect(g, bbox).value;
    InverseFactor(r.x0, bbox[0], g.pixWidth, g.pageWidth);
    InverseFactor(r.y0, bbox[1], g.pixHeight, g.pageHeight);
    InverseFactor(r.x1, bbox[2], g.pixWidth, g.pageWidth);
    InverseFactor(r.y1, bbox[3], g.pixHeight, g.pageHeight);
  }

  lemma InverseFactor(x: real, b: real, px: real, pt: real)
    requires px != 0.0 && pt != 0.0
    requires x * px == b * pt
    ensures x * (px / pt) == b
  {
    calc {
      x * (px / pt);
      (x * px) / pt;
      (b * pt) / pt;
      b;
    }
  }

  /**
   * `extract_text_from_coordinates`: the stripped native text inside the mapped rectangle;
   * every failure of the chain yields the empty string.
   */
  function ExtractText(page: PdfPage, bbox: seq<real>): (r: String)
    ensures Trimmed(r)
    ensures page.geometry.None? || |bbox| != 4 ==> r == []
    ensures r != [] ==>
      && page.geometry.Some? && ScaleRect(page.geometry.value, bbox).Some?
      && exists t :: page.clip(ScaleRect(page.geometry.value, bbox).value) == Some(t) && r == Strip(t)
    ensures page.geometry.Some? && ScaleRect(page.geometry.value, bbox).Some? ==>
      r == Strip(page.clip(ScaleRect(page.geometry.value, bbox).value).GetOr([]))
  {
    match page.geometry
    case None => []
    case Some(g) =>
      match ScaleRect(g, bbox)
      case None => []
      case Some(rect) =>
        match page.clip(rect)
        case None => []
        case Some(t) => Strip(t)
  }

  /** At unit scale the extracted text is the stripped text of the bbox read as points. */
  lemma ExtractTextUnitScale(page: PdfPage, bbox: seq<real>)
    requires page.geometry.Some?
    requires page.geometry.value.pixWidth == page.geometry.value.pageWidth
    requires page.geometry.value.pixHeight == page.geometry.value.pageHeight
    requires page.geometry.value.pixWidth != 0.0 && page.geometry.value.pixHeight != 0.0
    requires |bbox| == 4
    ensures ExtractText(page, bbox) == Strip(page.clip(Rect(bbox[0], bbox[1], bbox[2], bbox[3])).GetOr([]))
  {
    ScaleRectUnit(page.geometry.value, bbox);
  }

  // ---------------------------------------------------------------------------
  // Per-page aggregation (`process_layout_result`)

  /** `box.get('coordinate', [0, 0])[1]` is defined: the key is absent or has two entries. */
  predicate KeyDefined(b: Box) {
    b.coordinate.None? || |b.coordinate.value| >= 2
  }

  /** The sort key: the top edge, 0 when the box has no coordinate. */
  function SortKey(b: Box): real {
    match b.coordinate
    case None => 0.0
    case Some(c) => if |c| >= 2 then c[1] else 0.0
  }

  /** The top edge of an element's coordinates. */
  function Top(e: Element): real {
    if |e.coordinates| >= 2 then e.coordinates[1] else 0.0
  }

  /** The element type: the lowercased label, `"unknown"` when the label is absent. */
  function LabelOf(b: Box): String {
    ToLower(b.labelName.GetOr("unknown"))
  }

  function KindOf(e: Element): String {
    e.kind
  }

  /** The element built for box `b` under id `id`. */
  function ElementOf(b: Box, id: nat, page: PdfPage): (e: Element)
    ensures e.id == id && e.kind == LabelOf(b) && e.confidence == b.score
    ensures e.coordinates == b.coordinate.GetOr(DefaultCoordinates)
    ensures e.kind !in TextualKinds ==> e.text == []
    ensures e.kind in TextualKinds ==> e.text == ExtractText(page, e.coordinates)
  {
    var kind := LabelOf(b);
    var coords := b.coordinate.GetOr(DefaultCoordinates);
    Element(id, kind, b.score, if kind in TextualKinds then ExtractText(page, coords) else [], coords)
  }

  /** Text is requested only for textual labels: for the others the text layer is irrelevant. */
  lemma NonTextualIgnoresTextLayer(b: Box, id: nat, page: PdfPage, clip: Rect -> Option<String>)
    requires LabelOf(b) !in TextualKinds
    ensures ElementOf(b, id, page) == ElementOf(b, id, page.(clip := clip))
    ensures ElementOf(b, id, page).text == []
  {
  }

  /** Elements for `boxes` in order, numbered from `firstId`. */
  function Enumerate(boxes: seq<Box>, firstId: nat, page: PdfPage): (es: seq<Element>)
    ensures |es| == |boxes|
    ensures forall i :: 0 <= i < |es| ==> es[i] == ElementOf(boxes[i], firstId + i, page)
  {
    if |boxes| == 0 then [] else [ElementOf(boxes[0], firstId, page)] + Enumerate(boxes[1..], firstId + 1, page)
  }

  /**
   * `element_counts`: a running count per label. The keys are exactly the labels that occur
   * and each count is the label's multiplicity.
   */
  function CountKinds(kinds: seq<String>): (m: map<String, nat>)
    ensures forall l :: l in m <==> l in kinds
    ensures forall l :: l in m ==> m[l] == multiset(kinds)[l]
  {
    if |kinds| == 0 then map[]
    else
      var m := CountKinds(kinds[..|kinds| - 1]);
      var l := kinds[|kinds| - 1];
      assert kinds == kinds[..|kinds| - 1] + [l];
      m[l := (if l in m then m[l] else 0) + 1]
  }

  /** The counts add up to the number of elements. */
  lemma {:induction false} CountKindsTotal(kinds: seq<String>)
    ensures SumValues(CountKinds(kinds)) == |kinds|
  {
    if |kinds| > 0 {
      var front := kinds[..|kinds| - 1];
      CountKindsTotal(front);
      SumValuesIncrement(CountKinds(front), kinds[|kinds| - 1]);
    }
  }

  predicate AllKeysDefined(boxes: seq<Box>) {
    forall i :: 0 <= i < |boxes| ==> KeyDefined(boxes[i])
  }

  /** Reading order: a stable ascending sort on the top edge. */
  function ReadingOrder(boxes: seq<Box>): seq<Box> {
    StableSort.SortBy(boxes, SortKey)
  }

  /**
   * `process_layout_result` for the boxes of one detection on page `pageNum` (0-based).
   * No boxes gives an empty page; a box whose coordinate is too short to hold a top edge
   * makes the sort raise, which leaves the page empty and marked with an error.
   */
  function ProcessLayoutResult(boxes: seq<Box>, pageNum: nat, page: PdfPage): (r: PageResult)
    ensures r.pageNumber == pageNum + 1
    ensures |boxes| == 0 ==> r == PageResult(pageNum + 1, [], map[], false)
    ensures r.failed <==> !AllKeysDefined(boxes)
    ensures r.failed ==> r.elements == [] && r.counts == map[]
    ensures !r.failed ==> |r.elements| == |boxes|
    ensures forall i :: 0 <= i < |r.elements| ==> r.elements[i].id == i + 1
    ensures forall i :: 0 <= i < |r.elements| && r.elements[i].kind !in TextualKinds ==> r.elements[i].text == []
    ensures forall i :: 0 <= i < |r.elements| && r.elements[i].kind in TextualKinds ==>
      r.elements[i].text == ExtractText(page, r.elements[i].coordinates)
  {
    if |boxes| == 0 then PageResult(pageNum + 1, [], map[], false)
    else if !AllKeysDefined(boxes) then PageResult(pageNum + 1, [], map[], true)
    else
      var elements := Enumerate(ReadingOrder(boxes), 1, page);
      PageResult(pageNum + 1, elements, CountKinds(Map(elements, KindOf)), false)
  }

  /** A stable sort keeps the boxes, so every sorted box has a top edge when every input box has. */
  lemma ReadingOrderKeysDefined(boxes: seq<Box>)
    requires AllKeysDefined(boxes)
    ensures AllKeysDefined(ReadingOrder(boxes))
  {
    var sorted := ReadingOrder(boxes);
    forall i | 0 <= i < |sorted|
      ensures KeyDefined(sorted[i])
    {
      assert sorted[i] in multiset(sorted);
    }
  }

  /** Elements come out top to bottom: their top edges never decrease. */
  lemma PageElementsOrdered(boxes: seq<Box>, pageNum: nat, page: PdfPage)
    ensures var es := ProcessLayoutResult(boxes, pageNum, page).elements;
      && (forall i :: 0 <= i < |es| ==> |es[i].coordinates| >= 2)
      && (forall i, j :: 0 <= i < j < |es| ==> es[i].coordinates[1] <= es[j].coordinates[1])
  {
    if |boxes| > 0 && AllKeysDefined(boxes) {
      ReadingOrderKeysDefined(boxes);
      var sorted := ReadingOrder(boxes);
      var es := Enumerate(sorted, 1, page);
      assert ProcessLayoutResult(boxes, pageNum, page).elements == es;
      forall i | 0 <= i < |es|
        ensures |es[i].coordinates| >= 2 && es[i].coordinates[1] == SortKey(sorted[i])
      {
        ElementTop(sorted[i], 1 + i, page);
      }
      assert StableSort.SortedBy(sorted, SortKey);
    }
  }

  lemma ElementTop(b: Box, id: nat, page: PdfPage)
    requires KeyDefined(b)
    ensures |ElementOf(b, id, page).coordinates| >= 2
    ensures ElementOf(b, id, page).coordinates[1] == SortKey(b) == Top(ElementOf(b, id, page))
  {
  }

  /** The element types are the lowercased labels of the boxes, each used once. */
  lemma PageKindsArePermutedLabels(boxes: seq<Box>, pageNum: nat, page: PdfPage)
    requires AllKeysDefined(boxes)
    ensures multiset(Map(ProcessLayoutResult(boxes, pageNum, page).elements, KindOf)) == multiset(Map(boxes, LabelOf))
  {
    if |boxes| > 0 {
      var sorted := ReadingOrder(boxes);
      assert ProcessLayoutResult(boxes, pageNum, page).elements == Enumerate(sorted, 1, page);
      EnumerateKinds(sorted, 1, page);
      MapPermutation(sorted, boxes, LabelOf);
    }
  }

  lemma EnumerateKinds(boxes: seq<Box>, firstId: nat, page: PdfPage)
    ensures Map(Enumerate(boxes, firstId, page), KindOf) == Map(boxes, LabelOf)
  {
    var es := Enumerate(boxes, firstId, page);
    assert forall i :: 0 <= i < |es| ==> KindOf(es[i]) == LabelOf(boxes[i]);
  }

  /**
   * `element_counts` agrees with the elements: a label is a key exactly when some element
   * has that type, its count is the number of such elements, and the counts add up to the
   * number of elements.
   */
  lemma PageCountsConsistent(boxes: seq<Box>, pageNum: nat, page: PdfPage)
    ensures var r := ProcessLayoutResult(boxes, pageNum, page);
      && (forall l :: l in r.counts <==> l in Map(r.elements, KindOf))
      && (forall l :: l in r.counts ==> r.counts[l] == multiset(Map(r.elements, KindOf))[l])
      && SumValues(r.counts) == |r.elements|
  {
    var r := ProcessLayoutResult(boxes, pageNum, page);
    if !r.failed && |boxes| > 0 {
      CountKindsTotal(Map(r.elements, KindOf));
    }
  }

  /** An element with its id erased, to compare elements across numberings. */
  function Body(e: Element): Element {
    e.(id := 0)
  }

  lemma {:induction false} EnumerateWithTop(boxes: seq<Box>, firstId: nat, page: PdfPage, k: real)
    requires AllKeysDefined(boxes)
    ensures Map(StableSort.WithKey(Enumerate(boxes, firstId, page), Top, k), Body)
         == Map(StableSort.WithKey(boxes, SortKey, k), b => ElementOf(b, 0, page))
  {
    if |boxes| > 0 {
      var es := Enumerate(boxes, firstId, page);
      assert es[1..] == Enumerate(boxes[1..], firstId + 1, page);
      EnumerateWithTop(boxes[1..], firstId + 1, page, k);
      assert Top(es[0]) == SortKey(boxes[0]);
      var f := b => ElementOf(b, 0, page);
      var head := if SortKey(boxes[0]) == k then [boxes[0]] else [];
      MapConcat(head, StableSort.WithKey(boxes[1..], SortKey, k), f);
      MapConcat(if Top(es[0]) == k then [es[0]] else [], StableSort.WithKey(es[1..], Top, k), Body);
    }
  }

  /**
   * Stability of the reading order: the elements sharing a top edge are exactly the boxes
   * sharing that top edge, in detector order.
   */
  lemma ReadingOrderStable(boxes: seq<Box>, pageNum: nat, page: PdfPage, k: real)
    requires AllKeysDefined(boxes)
    ensures var r := ProcessLayoutResult(boxes, pageNum, page);
      Map(StableSort.WithKey(r.elements, Top, k), Body)
        == Map(StableSort.WithKey(boxes, SortKey, k), b => ElementOf(b, 0, page))
  {
    var sorted := ReadingOrder(boxes);
    ReadingOrderKeysDefined(boxes);
    EnumerateWithTop(sorted, 1, page, k);
    StableSort.SortByStable(boxes, SortKey);
  }

  // ---------------------------------------------------------------------------
  // One page in a worker (`process_page_worker`)

  function ResultsOf(out: (seq<PageResult>, real)): seq<PageResult> {
    out.0
  }

  function SecondsOf(out: (seq<PageResult>, real)): real {
    out.1
  }

  /**
   * A worker's outcome for page `pageNum`: one page result per detection output and the
   * detector time; a failed detection (`None`, the worker's caught exception) yields no
   * results and zero time.
   */
  function ProcessPage(pageNum: nat, detection: Option<Detection>, page: PdfPage): (out: (seq<PageResult>, real))
    ensures detection.None? ==> out == ([], 0.0)
    ensures detection.Some? ==> |out.0| == |detection.value.outputs| && out.1 == detection.value.seconds
    ensures forall i :: 0 <= i < |out.0| ==> out.0[i].pageNumber == pageNum + 1
    ensures detection.Some? ==>
      forall i :: 0 <= i < |out.0| ==> out.0[i] == ProcessLayoutResult(detection.value.outputs[i], pageNum, page)
  {
    match detection
    case None => ([], 0.0)
    case Some(d) =>
      (seq(|d.outputs|, i requires 0 <= i < |d.outputs| => ProcessLayoutResult(d.outputs[i], pageNum, page)), d.seconds)
  }

  // ---------------------------------------------------------------------------
  // Rasterisation (`convert_pdf_to_images_in_memory`)

  /**
   * The indices, from `start` on, of the pages that rasterise: strictly increasing, and a
   * page is listed exactly when it rasterises (failing pages are skipped).
   */
  function RasterizedFrom(pdf: seq<PdfPage>, start: nat): (images: seq<nat>)
    requires start <= |pdf|
    ensures forall i :: 0 <= i < |images| ==> start <= images[i] < |pdf| && pdf[images[i]].rasterizes
    ensures forall i, j :: 0 <= i < j < |images| ==> images[i] < images[j]
    ensures forall n :: start <= n < |pdf| && pdf[n].rasterizes ==> n in images
    ensures |images| <= |pdf| - start
    decreases |pdf| - start
  {
    if start == |pdf| then []
    else (if pdf[start].rasterizes then [start] else []) + RasterizedFrom(pdf, start + 1)
  }

  function Rasterized(pdf: seq<PdfPage>): seq<nat> {
    RasterizedFrom(pdf, 0)
  }

  // ---------------------------------------------------------------------------
  // Fan-in (`process_pdf_parallel`)

  /** Collecting the workers' outcomes in submission order: results extended, times summed. */
  function FanIn(outs: seq<(seq<PageResult>, real)>): (r: (seq<PageResult>, real))
  {
    if |outs| == 0 then ([], 0.0)
    else
      var acc := FanIn(outs[..|outs| - 1]);
      var last := outs[|outs| - 1];
      (acc.0 + last.0, acc.1 + last.1)
  }

  /** Fan-in distributes over concatenation of the outcome list. */
  lemma {:induction false} FanInConcat(a: seq<(seq<PageResult>, real)>, b: seq<(seq<PageResult>, real)>)
    ensures FanIn(a + b) == (FanIn(a).0 + FanIn(b).0, FanIn(a).1 + FanIn(b).1)
    decreases |b|
  {
    if |b| == 0 {
      assert a + b == a;
      assert FanIn(a).0 + [] == FanIn(a).0;
    } else {
      var b' := b[..|b| - 1];
      var last := b[|b| - 1];
      assert (a + b)[..|a + b| - 1] == a + b';
      assert (a + b)[|a + b| - 1] == last;
      FanInConcat(a, b');
      assert FanIn(b) == (FanIn(b').0 + last.0, FanIn(b').1 + last.1);
      assert FanIn(a + b) == (FanIn(a + b').0 + last.0, FanIn(a + b').1 + last.1);
      assert FanIn(a).0 + FanIn(b').0 + last.0 == FanIn(a).0 + (FanIn(b').0 + last.0);
    }
  }

  /** Fan-in is the concatenation of the per-page result lists in page order. */
  lemma {:induction false} FanInIsConcatenation(outs: seq<(seq<PageResult>, real)>)
    ensures FanIn(outs).0 == Flatten(Map(outs, ResultsOf))
  {
    if |outs| > 0 {
      assert outs == [outs[0]] + outs[1..];
      FanInConcat([outs[0]], outs[1..]);
      FanInIsConcatenation(outs[1..]);
      assert FanIn([outs[0]]).0 == [] + outs[0].0;
    }
  }

  /** The total layout time is the sum of the per-page times. */
  lemma {:induction false} FanInIsSum(outs: seq<(seq<PageResult>, real)>)
    ensures FanIn(outs).1 == Sum(Map(outs, SecondsOf))
  {
    if |outs| > 0 {
      assert outs == [outs[0]] + outs[1..];
      FanInConcat([outs[0]], outs[1..]);
      FanInIsSum(outs[1..]);
      assert FanIn([outs[0]]).1 == 0.0 + outs[0].1;
    }
  }

  /** A page whose worker failed contributes no results and no time. */
  lemma FailedPageContributesNothing(a: seq<(seq<PageResult>, real)>, b: seq<(seq<PageResult>, real)>)
    ensures FanIn(a + [([], 0.0)] + b) == FanIn(a + b)
  {
    var none: (seq<PageResult>, real) := ([], 0.0);
    FanInConcat(a + [none], b);
    FanInConcat(a, [none]);
    FanInConcat(a, b);
    assert [none][..0] == [];
    assert FanIn([none]) == ([] + none.0, 0.0 + none.1);
    assert FanIn(a + [none]) == FanIn(a) by {
      assert FanIn(a).0 + [] == FanIn(a).0;
    }
  }

  /** The manifest written for a document. */
  datatype Manifest = Manifest(document: String, totalPages: nat, layoutTimeTotal: real, pages: seq<PageResult>)

  /**
   * What `process_pdf_parallel` does with one document: a missing file is reported, a
   * document with no rasterised page writes nothing, otherwise a manifest is written.
   */
  datatype PdfOutcome = DocumentNotFound | NoImages | Written(manifest: Manifest)

  /** The worker outcome for every rasterised page, in page order (`pool.map`). */
  function WorkerOutcomes(images: seq<nat>, pdf: seq<PdfPage>, detect: nat -> Option<Detection>): (outs: seq<(seq<PageResult>, real)>)
    requires forall i :: 0 <= i < |images| ==> images[i] < |pdf|
    ensures |outs| == |images|
    ensures forall i :: 0 <= i < |images| ==> outs[i] == ProcessPage(images[i], detect(images[i]), pdf[images[i]])
  {
    seq(|images|, i requires 0 <= i < |images| => ProcessPage(images[i], detect(images[i]), pdf[images[i]]))
  }

  /**
   * `process_pdf_parallel` for a document at `path`: `found` says whether the file exists,
   * `pdf` lists its pages, and `detect(n)` is the detector's outcome on page `n`.
   */
  function ProcessPdf(path: String, found: bool, pdf: seq<PdfPage>, detect: nat -> Option<Detection>): (r: PdfOutcome)
    ensures r.DocumentNotFound? <==> !found
    ensures r.NoImages? <==> found && forall n :: 0 <= n < |pdf| ==> !pdf[n].rasterizes
    ensures r.Written? ==> r.manifest.document == path
    ensures r.Written? ==> 0 < r.manifest.totalPages <= |pdf|
  {
    if !found then DocumentNotFound
    else
      var images := Rasterized(pdf);
      if |images| == 0 then NoImages
      else
        var collected := FanIn(WorkerOutcomes(images, pdf, detect));
        Written(Manifest(path, |images|, collected.1, collected.0))
  }

  /** The list `process_pdf_parallel` returns: the manifest's pages, or nothing. */
  function Returned(r: PdfOutcome): seq<PageResult> {
    if r.Written? then r.manifest.pages else []
  }

  /** Per-page result lists whose page numbers are the given strictly increasing tags. */
  predicate Tagged(ss: seq<seq<PageResult>>, tags: seq<int>) {
    && |ss| == |tags|
    && (forall i, j :: 0 <= i < j < |tags| ==> tags[i] < tags[j])
    && (forall i, j :: 0 <= i < |ss| && 0 <= j < |ss[i]| ==> ss[i][j].pageNumber == tags[i])
  }

  lemma {:induction false} FlattenTaggedBounds(ss: seq<seq<PageResult>>, tags: seq<int>)
    requires Tagged(ss, tags)
    ensures forall a :: 0 <= a < |Flatten(ss)| ==> Flatten(ss)[a].pageNumber in tags
    ensures |tags| > 0 ==> forall a :: 0 <= a < |Flatten(ss)| ==> Flatten(ss)[a].pageNumber >= tags[0]
  {
    if |ss| > 0 {
      FlattenTaggedBounds(ss[1..], tags[1..]);
      var rest := Flatten(ss[1..]);
      assert forall a :: 0 <= a < |rest| ==> rest[a].pageNumber in tags[1..];
    }
  }

  lemma {:induction false} FlattenTaggedOrdered(ss: seq<seq<PageResult>>, tags: seq<int>)
    requires Tagged(ss, tags)
    ensures forall a, b :: 0 <= a < b < |Flatten(ss)| ==> Flatten(ss)[a].pageNumber <= Flatten(ss)[b].pageNumber
  {
    if |ss| > 0 {
      FlattenTaggedOrdered(ss[1..], tags[1..]);
      FlattenTaggedBounds(ss[1..], tags[1..]);
      var rest := Flatten(ss[1..]);
      assert forall a :: 0 <= a < |rest| ==> rest[a].pageNumber > tags[0];
    }
  }

  lemma {:induction false} FlattenTaggedStrict(ss: seq<seq<PageResult>>, tags: seq<int>)
    requires Tagged(ss, tags)
    requires forall i :: 0 <= i < |ss| ==> |ss[i]| <= 1
    ensures |Flatten(ss)| <= |ss|
    ensures forall a, b :: 0 <= a < b < |Flatten(ss)| ==> Flatten(ss)[a].pageNumber < Flatten(ss)[b].pageNumber
  {
    if |ss| > 0 {
      FlattenTaggedStrict(ss[1..], tags[1..]);
      FlattenTaggedBounds(ss[1..], tags[1..]);
      var rest := Flatten(ss[1..]);
      assert forall a :: 0 <= a < |rest| ==> rest[a].pageNumber > tags[0];
    }
  }

  /** The pages of the manifest before it is written: all worker results, in page order. */
  function CollectedPages(pdf: seq<PdfPage>, detect: nat -> Option<Detection>): seq<PageResult> {
    Flatten(Map(WorkerOutcomes(Rasterized(pdf), pdf, detect), ResultsOf))
  }

  lemma ManifestPagesAreCollected(path: String, found: bool, pdf: seq<PdfPage>, detect: nat -> Option<Detection>)
    requires ProcessPdf(path, found, pdf, detect).Written?
    ensures var m := ProcessPdf(path, found, pdf, detect).manifest;
      m.totalPages == |Rasterized(pdf)| && m.pages == CollectedPages(pdf, detect)
  {
    FanInIsConcatenation(WorkerOutcomes(Rasterized(pdf), pdf, detect));
  }

  /** `layout_time_total` is the sum of the per-page detection times. */
  lemma ManifestLayoutTime(path: String, found: bool, pdf: seq<PdfPage>, detect: nat -> Option<Detection>)
    requires ProcessPdf(path, found, pdf, detect).Written?
    ensures ProcessPdf(path, found, pdf, detect).manifest.layoutTimeTotal
         == Sum(Map(WorkerOutcomes(Rasterized(pdf), pdf, detect), SecondsOf))
  {
    FanInIsSum(WorkerOutcomes(Rasterized(pdf), pdf, detect));
  }

  lemma CollectedPagesRasterized(pdf: seq<PdfPage>, detect: nat -> Option<Detection>)
    ensures var f := CollectedPages(pdf, detect);
      forall a :: 0 <= a < |f| ==> 1 <= f[a].pageNumber <= |pdf| && pdf[f[a].pageNumber - 1].rasterizes
  {
    var images := Rasterized(pdf);
    var ss: seq<seq<PageResult>> := Map(WorkerOutcomes(images, pdf, detect), ResultsOf);
    OutcomesTagged(images, pdf, detect);
    TaggedPagesRasterized(ss, pdf);
    assert CollectedPages(pdf, detect) == Flatten(ss);
  }

  lemma TaggedPagesRasterized(ss: seq<seq<PageResult>>, pdf: seq<PdfPage>)
    requires Tagged(ss, PageNumbers(Rasterized(pdf)))
    ensures var f := Flatten(ss);
      forall a :: 0 <= a < |f| ==> 1 <= f[a].pageNumber <= |pdf| && pdf[f[a].pageNumber - 1].rasterizes
  {
    var f := Flatten(ss);
    FlattenTaggedBounds(ss, PageNumbers(Rasterized(pdf)));
    forall a | 0 <= a < |f|
      ensures 1 <= f[a].pageNumber <= |pdf| && pdf[f[a].pageNumber - 1].rasterizes
    {
      PageNumberRasterized(pdf, f[a].pageNumber);
    }
  }

  lemma PageNumberRasterized(pdf: seq<PdfPage>, n: int)
    requires n in PageNumbers(Rasterized(pdf))
    ensures 1 <= n <= |pdf| && pdf[n - 1].rasterizes
  {
    var images := Rasterized(pdf);
    var i :| 0 <= i < |images| && PageNumbers(images)[i] == n;
  }

  lemma CollectedPagesOrdered(pdf: seq<PdfPage>, detect: nat -> Option<Detection>)
    ensures var f := CollectedPages(pdf, detect);
      forall a, b :: 0 <= a < b < |f| ==> f[a].pageNumber <= f[b].pageNumber
  {
    var images := Rasterized(pdf);
    var ss: seq<seq<PageResult>> := Map(WorkerOutcomes(images, pdf, detect), ResultsOf);
    OutcomesTagged(images, pdf, detect);
    FlattenTaggedOrdered(ss, PageNumbers(images));
    assert CollectedPages(pdf, detect) == Flatten(ss);
  }

  lemma CollectedPagesStrict(pdf: seq<PdfPage>, detect: nat -> Option<Detection>)
    requires forall n :: detect(n).Some? ==> |detect(n).value.outputs| <= 1
    ensures var f := CollectedPages(pdf, detect);
      && |f| <= |Rasterized(pdf)|
      && (forall a, b :: 0 <= a < b < |f| ==> f[a].pageNumber < f[b].pageNumber)
  {
    var images := Rasterized(pdf);
    var outs := WorkerOutcomes(images, pdf, detect);
    var ss: seq<seq<PageResult>> := Map(outs, ResultsOf);
    OutcomesTagged(images, pdf, detect);
    forall i | 0 <= i < |ss|
      ensures |ss[i]| <= 1
    {
      assert ss[i] == ProcessPage(images[i], detect(images[i]), pdf[images[i]]).0;
    }
    FlattenTaggedStrict(ss, PageNumbers(images));
  }

  /** Every manifest page comes from a page that rasterised: its number is that index plus one. */
  lemma ManifestPagesRasterized(path: String, found: bool, pdf: seq<PdfPage>, detect: nat -> Option<Detection>)
    requires ProcessPdf(path, found, pdf, detect).Written?
    ensures var pages := ProcessPdf(path, found, pdf, detect).manifest.pages;
      forall a :: 0 <= a < |pages| ==> 1 <= pages[a].pageNumber <= |pdf| && pdf[pages[a].pageNumber - 1].rasterizes
  {
    var pages := ProcessPdf(path, found, pdf, detect).manifest.pages;
    assert pages == CollectedPages(pdf, detect) by {
      ManifestPagesAreCollected(path, found, pdf, detect);
    }
    CollectedPagesRasterized(pdf, detect);
  }

  /** A page result the detector produced: the processing of output `j` of a rasterised page `n`. */
  ghost predicate Detected(pdf: seq<PdfPage>, detect: nat -> Option<Detection>, p: PageResult) {
    exists n: nat, j: nat :: n < |pdf| && n in Rasterized(pdf) && detect(n).Some? && j < |detect(n).value.outputs|
      && p == ProcessLayoutResult(detect(n).value.outputs[j], n, pdf[n])
  }

  lemma CollectedPagesDetected(pdf: seq<PdfPage>, detect: nat -> Option<Detection>)
    ensures var f := CollectedPages(pdf, detect);
      forall a :: 0 <= a < |f| ==> Detected(pdf, detect, f[a])
  {
    var images := Rasterized(pdf);
    var ss: seq<seq<PageResult>> := Map(WorkerOutcomes(images, pdf, detect), ResultsOf);
    var f := Flatten(ss);
    assert CollectedPages(pdf, detect) == f;
    forall a | 0 <= a < |f|
      ensures Detected(pdf, detect, f[a])
    {
      var i, j := FlattenIndex(ss, a);
      var n := images[i];
      assert ss[i] == ProcessPage(n, detect(n), pdf[n]).0;
      assert detect(n).Some?;
      assert f[a] == ProcessLayoutResult(detect(n).value.outputs[j], n, pdf[n]);
    }
  }

  /**
   * Every manifest page is the processing of one detector output for one rasterised page,
   * numbered after that page.
   */
  lemma ManifestPagesDetected(path: String, found: bool, pdf: seq<PdfPage>, detect: nat -> Option<Detection>)
    requires ProcessPdf(path, found, pdf, detect).Written?
    ensures var pages := ProcessPdf(path, found, pdf, detect).manifest.pages;
      forall a :: 0 <= a < |pages| ==> Detected(pdf, detect, pages[a])
  {
    var pages := ProcessPdf(path, found, pdf, detect).manifest.pages;
    assert pages == CollectedPages(pdf, detect) by {
      ManifestPagesAreCollected(path, found, pdf, detect);
    }
    CollectedPagesDetected(pdf, detect);
  }

  /**
   * The manifest's pages come in document order (page numbers never decrease), and
   * `total_pages` is the number of rasterised pages.
   */
  lemma ManifestPageOrder(path: String, found: bool, pdf: seq<PdfPage>, detect: nat -> Option<Detection>)
    requires ProcessPdf(path, found, pdf, detect).Written?
    ensures var m := ProcessPdf(path, found, pdf, detect).manifest;
      && m.totalPages == |Rasterized(pdf)|
      && (forall a, b :: 0 <= a < b < |m.pages| ==> m.pages[a].pageNumber <= m.pages[b].pageNumber)
  {
    ManifestPagesAreCollected(path, found, pdf, detect);
    CollectedPagesOrdered(pdf, detect);
  }

  /**
   * With one detection output per page (a batch of one image), page numbers strictly
   * increase, so the manifest holds no more pages than `total_pages`.
   */
  lemma ManifestPagesStrictlyIncrease(path: String, found: bool, pdf: seq<PdfPage>, detect: nat -> Option<Detection>)
    requires ProcessPdf(path, found, pdf, detect).Written?
    requires forall n :: detect(n).Some? ==> |detect(n).value.outputs| <= 1
    ensures var m := ProcessPdf(path, found, pdf, detect).manifest;
      && |m.pages| <= m.totalPages
      && (forall a, b :: 0 <= a < b < |m.pages| ==> m.pages[a].pageNumber < m.pages[b].pageNumber)
  {
    ManifestPagesAreCollected(path, found, pdf, detect);
    CollectedPagesStrict(pdf, detect);
  }

  /** The 1-based page numbers of the rasterised page indices. */
  function PageNumbers(images: seq<nat>): (tags: seq<int>)
    ensures |tags| == |images|
    ensures forall i :: 0 <= i < |images| ==> tags[i] == images[i] + 1
  {
    seq(|images|, i requires 0 <= i < |images| => images[i] + 1)
  }

  lemma OutcomesTagged(images: seq<nat>, pdf: seq<PdfPage>, detect: nat -> Option<Detection>)
    requires images == Rasterized(pdf)
    ensures Tagged(Map(WorkerOutcomes(images, pdf, detect), ResultsOf), PageNumbers(images))
  {
    var ss: seq<seq<PageResult>> := Map(WorkerOutcomes(images, pdf, detect), ResultsOf);
    forall i, j | 0 <= i < |ss| && 0 <= j < |ss[i]|
      ensures ss[i][j].pageNumber == PageNumbers(images)[i]
    {
      assert ss[i] == ProcessPage(images[i], detect(images[i]), pdf[images[i]]).0;
    }
  }

  // ---------------------------------------------------------------------------
  // Configuration and summary

  /** `FastPDFProcessor.__init__`: the requested worker count, or `min(cpu_count, 4)`. */
  function MaxWorkers(requested: Option<int>, cpuCount: nat): (r: int)
    ensures requested.Some? ==> r == requested.value
    ensures requested.None? ==> r <= WorkerCap && r <= cpuCount && (r == WorkerCap || r == cpuCount)
  {
    match requested
    case Some(n) => n
    case None => if cpuCount < WorkerCap then cpuCount else WorkerCap
  }

  /** A title counted by `print_extracted_titles`. */
  predicate IsReportedTitle(e: Element) {
    (e.kind == "doc_title" || e.kind == "paragraph_title") && Strip(e.text) != []
  }

  /** Total number of elements over a list of page results. */
  function ElementTotal(results: seq<PageResult>): nat {
    if |results| == 0 then 0 else |results[0].elements| + ElementTotal(results[1..])
  }

  /** The title count printed after a document: never more than the elements seen. */
  function TitleCount(results: seq<PageResult>): (n: nat)
    ensures n <= ElementTotal(results)
  {
    if |results| == 0 then 0 else |Filter(results[0].elements, IsReportedTitle)| + TitleCount(results[1..])
  }

  function ElementsOfPage(p: PageResult): seq<Element> {
    p.elements
  }

  /** The title count is the number of reported titles among all elements, page after page. */
  lemma {:induction false} TitleCountIsReportedTitles(results: seq<PageResult>)
    ensures TitleCount(results) == |Filter(Flatten(Map(results, ElementsOfPage)), IsReportedTitle)|
  {
    if |results| > 0 {
      var all := Map(results, ElementsOfPage);
      TitleCountIsReportedTitles(results[1..]);
      assert all[1..] == Map(results[1..], ElementsOfPage);
      assert Flatten(all) == results[0].elements + Flatten(all[1..]);
      FilterConcat(results[0].elements, Flatten(all[1..]), IsReportedTitle);
    }
  }

  /** Counting titles over two result lists adds up. */
  lemma {:induction false} TitleCountConcat(a: seq<PageResult>, b: seq<PageResult>)
    ensures TitleCount(a + b) == TitleCount(a) + TitleCount(b)
  {
    if |a| == 0 {
      assert a + b == b;
    } else {
      assert (a + b)[0] == a[0];
      assert (a + b)[1..] == a[1..] + b;
      TitleCountConcat(a[1..], b);
    }
  }
}
