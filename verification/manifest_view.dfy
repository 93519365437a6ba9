/**
 * The layout manifest as the downstream scripts read it back from JSON: every key they
 * look up may be absent, so each field is optional or defaults to an empty list.
 */
module ManifestView {
  import opened Optional
  import opened Text
  import Layout

  /** An element: `type` and `text`, either of which may be missing. */
  datatype Elem = Elem(kind: Option<String>, text: Option<String>)

  /** A page: `page_number` (missing or null is `None`) and `elements` (missing is empty). */
  datatype Page = Page(pageNumber: Option<int>, elements: seq<Elem>)

  /** A manifest object: `document`, `pages`, and a top-level `elements` list (missing is empty). */
  datatype Doc = Doc(document: Option<String>, pages: seq<Page>, elements: seq<Elem>)

  function ElemOf(e: Layout.Element): Elem {
    Elem(Some(e.kind), Some(e.text))
  }

  function PageOf(p: Layout.PageResult): Page {
    Page(Some(p.pageNumber), seq(|p.elements|, i requires 0 <= i < |p.elements| => ElemOf(p.elements[i])))
  }

  /** A manifest written by the layout step, read back: it has no top-level `elements`. */
  function DocOf(m: Layout.Manifest): (d: Doc)
    ensures d.document == Some(m.document) && |d.pages| == |m.pages| && d.elements == []
  {
    Doc(Some(m.document), seq(|m.pages|, i requires 0 <= i < |m.pages| => PageOf(m.pages[i])), [])
  }
}
