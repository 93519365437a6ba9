/**
 * `step2_extract_only_headings.py`: one list of headings per collection, taken from the
 * non-blank `paragraph_title` elements of every `parallel_layout_results*.json` under it.
 */
module Headings {
  import opened Optional
  import opened Text
  import opened Seqs
  import opened ManifestView
  import Paths

  /** One output record (`heading`, `level`, `doc_title`). */
  datatype Heading = Heading(heading: String, level: String, docTitle: String)

  /** A file met while walking a collection: its name and its parsed contents. */
  datatype LayoutFile = LayoutFile(name: String, doc: Doc)

  const TitleKind: String := "paragraph_title"

  /** Only `parallel_layout_results*.json` files are read. */
  predicate IsLayoutFile(name: String) {
    StartsWith(name, "parallel_layout_results") && EndsWith(name, ".json")
  }

  /** `doc_title`: the stem of the manifest's `document` (missing is the empty path). */
  function DocTitle(d: Doc): String {
    Paths.Stem(d.document.GetOr([]))
  }

  /** A `paragraph_title` whose stripped text is non-blank. */
  predicate Named(e: Elem) {
    e.kind == Some(TitleKind) && Strip(e.text.GetOr([])) != []
  }

  function HeadingOf(e: Elem, docTitle: String): Heading {
    Heading(Strip(e.text.GetOr([])), TitleKind, docTitle)
  }

  /** The heading an element contributes: one for a named title, none otherwise. */
  function Own(e: Elem, docTitle: String): (r: seq<Heading>)
    ensures |r| <= 1
    ensures |r| == 1 <==> Named(e)
    ensures |r| == 1 ==> r[0] == HeadingOf(e, docTitle) && r[0].heading != [] && Trimmed(r[0].heading)
  {
    var h := Strip(e.text.GetOr([]));
    if e.kind == Some(TitleKind) && h != [] then [Heading(h, TitleKind, docTitle)] else []
  }

  /** The headings of a list of elements, in order. */
  function ElemHeadings(es: seq<Elem>, docTitle: String): (r: seq<Heading>)
    ensures |r| <= |es|
    ensures forall i :: 0 <= i < |r| ==>
      r[i].heading != [] && Trimmed(r[i].heading) && r[i].level == TitleKind && r[i].docTitle == docTitle
  {
    if |es| == 0 then [] else Own(es[0], docTitle) + ElemHeadings(es[1..], docTitle)
  }

  /** The headings of one manifest, page after page. */
  function DocHeadings(d: Doc): seq<Heading> {
    PagesHeadings(d.pages, DocTitle(d))
  }

  function PagesHeadings(pages: seq<Page>, docTitle: String): seq<Heading> {
    if |pages| == 0 then [] else ElemHeadings(pages[0].elements, docTitle) + PagesHeadings(pages[1..], docTitle)
  }

  /** All headings of a collection's files, in walk order; other files are skipped. */
  function FilesHeadings(files: seq<LayoutFile>): seq<Heading> {
    if |files| == 0 then []
    else (if IsLayoutFile(files[0].name) then DocHeadings(files[0].doc) else []) + FilesHeadings(files[1..])
  }

  /** A collection's output: written only when it found at least one heading. */
  function CollectionHeadings(files: seq<LayoutFile>): (r: Option<seq<Heading>>)
    ensures r.None? <==> FilesHeadings(files) == []
    ensures r.Some? ==> r.value == FilesHeadings(files)
  {
    var all := FilesHeadings(files);
    if |all| > 0 then Some(all) else None
  }

  /** The headings are exactly the named titles, mapped in order: nothing else, none lost. */
  lemma {:induction false} ElemHeadingsAreNamedTitles(es: seq<Elem>, docTitle: String)
    ensures ElemHeadings(es, docTitle) == Map(Filter(es, Named), e => HeadingOf(e, docTitle))
  {
    if |es| > 0 {
      ElemHeadingsAreNamedTitles(es[1..], docTitle);
      var f := e => HeadingOf(e, docTitle);
      var first := if Named(es[0]) then [es[0]] else [];
      assert Filter(es, Named) == first + Filter(es[1..], Named);
      MapConcat(first, Filter(es[1..], Named), f);
    }
  }

  /** Per page: the headings of a page list are those of its concatenated elements. */
  lemma {:induction false} PagesHeadingsConcat(pages: seq<Page>, docTitle: String)
    ensures PagesHeadings(pages, docTitle) == ElemHeadings(AllElements(pages), docTitle)
  {
    if |pages| > 0 {
      PagesHeadingsConcat(pages[1..], docTitle);
      ElemHeadingsConcat(pages[0].elements, AllElements(pages[1..]), docTitle);
    }
  }

  function AllElements(pages: seq<Page>): seq<Elem> {
    if |pages| == 0 then [] else pages[0].elements + AllElements(pages[1..])
  }

  lemma {:induction false} ElemHeadingsConcat(a: seq<Elem>, b: seq<Elem>, docTitle: String)
    ensures ElemHeadings(a + b, docTitle) == ElemHeadings(a, docTitle) + ElemHeadings(b, docTitle)
  {
    if |a| == 0 {
      assert a + b == b;
    } else {
      assert (a + b)[0] == a[0];
      assert (a + b)[1..] == a[1..] + b;
      ElemHeadingsConcat(a[1..], b, docTitle);
      assert ElemHeadings(a + b, docTitle)
          == Own(a[0], docTitle) + (ElemHeadings(a[1..], docTitle) + ElemHeadings(b, docTitle));
      ConcatAssoc(Own(a[0], docTitle), ElemHeadings(a[1..], docTitle), ElemHeadings(b, docTitle));
    }
  }

  /** A heading `h` of a manifest comes from a non-blank `paragraph_title` whose stripped text is `h`. */
  lemma DocHeadingsSource(d: Doc, i: nat)
    requires i < |DocHeadings(d)|
    ensures var es := Filter(AllElements(d.pages), Named);
      i < |es| && Named(es[i]) && DocHeadings(d)[i] == HeadingOf(es[i], DocTitle(d))
  {
    PagesHeadingsConcat(d.pages, DocTitle(d));
    ElemHeadingsAreNamedTitles(AllElements(d.pages), DocTitle(d));
  }

  predicate IsLayout(f: LayoutFile) {
    IsLayoutFile(f.name)
  }

  /** Files that are not layout results contribute nothing, whatever they contain. */
  lemma {:induction false} OnlyLayoutFilesCount(files: seq<LayoutFile>)
    ensures FilesHeadings(files) == FilesHeadings(Filter(files, IsLayout))
  {
    if |files| > 0 {
      var rest := Filter(files[1..], IsLayout);
      OnlyLayoutFilesCount(files[1..]);
      if IsLayout(files[0]) {
        assert Filter(files, IsLayout) == [files[0]] + rest;
        assert ([files[0]] + rest)[1..] == rest;
        assert FilesHeadings([files[0]] + rest) == DocHeadings(files[0].doc) + FilesHeadings(rest);
      } else {
        assert Filter(files, IsLayout) == rest;
      }
    }
  }
}
