/**
 * `process_file` of `step2_extract_only_texts.py`: rebuilds sections from a manifest by
 * walking its elements in page order. A `paragraph_title` closes the pending section and
 * opens a new one; a `text` element adds a block; every other element is ignored.
 */
module SectionTexts {
  import opened Optional
  import opened Text
  import opened Seqs
  import opened ManifestView
  import Paths

  /** An element together with the `page_number` of the page that holds it. */
  datatype Item = Item(page: Option<int>, elem: Elem)

  /** One output section (`title`, `text`, `doc_title`, `page_number`). */
  datatype Section = Section(title: String, text: String, docTitle: String, pageNumber: Option<int>)

  /**
   * The loop variables: `current_title`, `current_text_blocks`, `current_page_number`
   * and `tracking_text_started`.
   */
  datatype State = State(title: Option<String>, blocks: seq<String>, page: Option<int>, started: bool)

  const Init := State(None, [], None, false)

  predicate IsTitle(it: Item) {
    it.elem.kind == Some("paragraph_title")
  }

  predicate IsText(it: Item) {
    it.elem.kind == Some("text")
  }

  predicate Relevant(it: Item) {
    IsTitle(it) || IsText(it)
  }

  /** `elem.get("text", "")`. */
  function RawText(it: Item): String {
    it.elem.text.GetOr([])
  }

  /** Python truthiness of an optional string: present and non-empty. */
  predicate Truthy(o: Option<String>) {
    o.Some? && o.value != []
  }

  /** The elements of all pages, each paired with its page's number, in order. */
  function Items(pages: seq<Page>): seq<Item> {
    if |pages| == 0 then []
    else
      var p := pages[0];
      seq(|p.elements|, i requires 0 <= i < |p.elements| => Item(p.pageNumber, p.elements[i])) + Items(pages[1..])
  }

  /** The section closed from a state, if it has a truthy title and at least one block. */
  function Flush(st: State, doc: String): seq<Section> {
    if Truthy(st.title) && |st.blocks| > 0 then
      [Section(Strip(st.title.value), Join(" ", Map(st.blocks, Strip)), doc, st.page)]
    else []
  }

  /** The state just after a `paragraph_title` element. */
  function Opened(it: Item): State {
    State(Some(RawText(it)), [], None, false)
  }

  /** The effect of a non-title element: a `text` adds a block (and fixes the page once). */
  function Step(st: State, it: Item): State {
    if IsText(it) then State(st.title, st.blocks + [RawText(it)], if st.started then st.page else it.page, true)
    else st
  }

  /**
   * The loop from state `st` over `items`, followed by the final flush. It emits at most
   * one section per title it meets, plus one for a section already open.
   */
  function Run(st: State, items: seq<Item>, doc: String): (r: seq<Section>)
    ensures |r| <= |Filter(items, IsTitle)| + (if Truthy(st.title) then 1 else 0)
    decreases |items|
  {
    if |items| == 0 then Flush(st, doc)
    else
      assert items == [items[0]] + items[1..];
      FilterConcat([items[0]], items[1..], IsTitle);
      if IsTitle(items[0]) then Flush(st, doc) + Run(Opened(items[0]), items[1..], doc)
      else Run(Step(st, items[0]), items[1..], doc)
  }

  /** `doc_title`: the manifest's `document`, or the input file's base name. */
  function DocTitle(document: Option<String>, inputPath: String): String {
    document.GetOr(Paths.Basename(inputPath))
  }

  /** `process_file`: the sections written for one manifest read from `inputPath`. */
  function ProcessFile(m: Doc, inputPath: String): (r: seq<Section>)
    ensures |r| <= |Filter(Items(m.pages), IsTitle)|
  {
    Run(Init, Items(m.pages), DocTitle(m.document, inputPath))
  }

  // ---------------------------------------------------------------------------
  // Reference definition: one section per title segment

  /** Index of the first `paragraph_title`, or `|items|`. */
  function NextTitle(items: seq<Item>): (i: nat)
    ensures i <= |items|
    ensures forall j :: 0 <= j < i ==> !IsTitle(items[j])
    ensures i < |items| ==> IsTitle(items[i])
  {
    if |items| == 0 || IsTitle(items[0]) then 0 else 1 + NextTitle(items[1..])
  }

  /**
   * The section of a title and the elements up to the next title: present exactly when the
   * raw title is non-empty and some `text` follows; its text is the stripped blocks joined
   * by single spaces, its page that of the first `text`.
   */
  function SectionOf(title: Item, segment: seq<Item>, doc: String): seq<Section> {
    var texts := Filter(segment, IsText);
    if RawText(title) != [] && |texts| > 0 then
      [Section(Strip(RawText(title)), Join(" ", Map(Map(texts, RawText), Strip)), doc, texts[0].page)]
    else []
  }

  /** The sections of a run that starts at a title (or is empty), segment by segment. */
  function Titled(items: seq<Item>, doc: String): seq<Section>
    requires |items| == 0 || IsTitle(items[0])
    decreases |items|
  {
    if |items| == 0 then []
    else
      var q := 1 + NextTitle(items[1..]);
      SectionOf(items[0], items[1..q], doc) + Titled(items[q..], doc)
  }

  /** Sections by segment: whatever precedes the first title is never emitted. */
  function Sections(items: seq<Item>, doc: String): seq<Section> {
    Titled(items[NextTitle(items)..], doc)
  }

  /** The state a segment leaves behind: the title is kept and every `text` is appended. */
  function Absorb(st: State, segment: seq<Item>): (a: State)
    ensures a.title == st.title
    decreases |segment|
  {
    if |segment| == 0 then st else Absorb(Step(st, segment[0]), segment[1..])
  }

  lemma {:induction false} AbsorbBlocks(st: State, segment: seq<Item>)
    ensures Absorb(st, segment).blocks == st.blocks + Map(Filter(segment, IsText), RawText)
    decreases |segment|
  {
    if |segment| > 0 {
      var x := segment[0];
      AbsorbBlocks(Step(st, x), segment[1..]);
      assert segment == [x] + segment[1..];
      FilterConcat([x], segment[1..], IsText);
      MapConcat(Filter([x], IsText), Filter(segment[1..], IsText), RawText);
      assert Filter([x], IsText) == if IsText(x) then [x] else [];
    }
  }

  lemma {:induction false} AbsorbPage(st: State, segment: seq<Item>)
    ensures var texts := Filter(segment, IsText);
      && Absorb(st, segment).started == (st.started || |texts| > 0)
      && Absorb(st, segment).page == (if st.started || |texts| == 0 then st.page else texts[0].page)
    decreases |segment|
  {
    if |segment| > 0 {
      var x := segment[0];
      AbsorbPage(Step(st, x), segment[1..]);
      assert segment == [x] + segment[1..];
      FilterConcat([x], segment[1..], IsText);
      assert Filter([x], IsText) == if IsText(x) then [x] else [];
    }
  }

  /** Opening a title and absorbing its segment yields exactly that segment's section. */
  lemma FlushOfSegment(title: Item, segment: seq<Item>, doc: String)
    ensures Flush(Absorb(Opened(title), segment), doc) == SectionOf(title, segment, doc)
  {
    var a := Absorb(Opened(title), segment);
    var texts := Filter(segment, IsText);
    AbsorbBlocks(Opened(title), segment);
    AbsorbPage(Opened(title), segment);
    assert a.blocks == Map(texts, RawText);
    assert a.title == Some(RawText(title));
    assert |a.blocks| == |texts|;
  }

  /** The run splits at the next title: the open section's flush, then the reference sections. */
  lemma {:induction false} RunSplit(st: State, items: seq<Item>, doc: String)
    ensures var p := NextTitle(items);
      Run(st, items, doc) == Flush(Absorb(st, items[..p]), doc) + Titled(items[p..], doc)
    decreases |items|
  {
    if |items| == 0 {
      assert items[..0] == [];
    } else if IsTitle(items[0]) {
      RunSplit(Opened(items[0]), items[1..], doc);
      RunSplitAtTitle(st, items, doc);
    } else {
      RunSplit(Step(st, items[0]), items[1..], doc);
      RunSplitAtStep(st, items, doc);
    }
  }

  /** The title case of `RunSplit`, given the split of what follows the title. */
  lemma RunSplitAtTitle(st: State, items: seq<Item>, doc: String)
    requires |items| > 0 && IsTitle(items[0])
    requires var rest := items[1..]; var p := NextTitle(rest);
      Run(Opened(items[0]), rest, doc) == Flush(Absorb(Opened(items[0]), rest[..p]), doc) + Titled(rest[p..], doc)
    ensures var p := NextTitle(items);
      Run(st, items, doc) == Flush(Absorb(st, items[..p]), doc) + Titled(items[p..], doc)
  {
    assert items[..0] == [] && items[0..] == items;
    var rest := items[1..];
    var p' := NextTitle(rest);
    FlushOfSegment(items[0], rest[..p'], doc);
    assert rest[..p'] == items[1..1 + p'];
    assert rest[p'..] == items[1 + p'..];
    assert Titled(items, doc) == SectionOf(items[0], rest[..p'], doc) + Titled(rest[p'..], doc);
    assert Run(st, items, doc) == Flush(st, doc) + Run(Opened(items[0]), rest, doc);
    ConcatAssoc(Flush(st, doc), SectionOf(items[0], rest[..p'], doc), Titled(rest[p'..], doc));
  }

  /** The case of `RunSplit` for an element other than a title, given the split of the rest. */
  lemma RunSplitAtStep(st: State, items: seq<Item>, doc: String)
    requires |items| > 0 && !IsTitle(items[0])
    requires var rest := items[1..]; var p := NextTitle(rest);
      Run(Step(st, items[0]), rest, doc) == Flush(Absorb(Step(st, items[0]), rest[..p]), doc) + Titled(rest[p..], doc)
    ensures var p := NextTitle(items);
      Run(st, items, doc) == Flush(Absorb(st, items[..p]), doc) + Titled(items[p..], doc)
  {
    var rest := items[1..];
    var p := NextTitle(items);
    assert p == 1 + NextTitle(rest);
    assert items[..p][0] == items[0];
    assert items[..p][1..] == rest[..p - 1];
    assert Absorb(st, items[..p]) == Absorb(Step(st, items[0]), rest[..p - 1]);
    assert rest[p - 1..] == items[p..];
  }

  /** The state machine emits exactly the sections of the reference definition. */
  lemma RunIsSections(items: seq<Item>, doc: String)
    ensures Run(Init, items, doc) == Sections(items, doc)
  {
    RunSplit(Init, items, doc);
  }

  /** Elements other than `paragraph_title` and `text` neither flush nor append. */
  lemma {:induction false} OthersIgnored(st: State, items: seq<Item>, doc: String)
    ensures Run(st, items, doc) == Run(st, Filter(items, Relevant), doc)
    decreases |items|
  {
    if |items| > 0 {
      var x := items[0];
      var rest := items[1..];
      assert items == [x] + rest;
      FilterConcat([x], rest, Relevant);
      if IsTitle(x) {
        OthersIgnored(Opened(x), rest, doc);
        assert Filter(items, Relevant) == [x] + Filter(rest, Relevant);
      } else if IsText(x) {
        OthersIgnored(Step(st, x), rest, doc);
        assert Filter(items, Relevant) == [x] + Filter(rest, Relevant);
      } else {
        OthersIgnored(st, rest, doc);
        assert Step(st, x) == st;
        assert Run(st, items, doc) == Run(st, rest, doc);
        assert Filter(items, Relevant) == Filter(rest, Relevant);
      }
    }
  }
}
