/**
 * `step3_embeddings.py`: splits the top-level `elements` of each document folder's JSON
 * files into heading-led sections and attaches an embedding of each section's content.
 */
module SectionEmbeddings {
  import opened Optional
  import opened Text
  import opened Seqs
  import opened ManifestView
  import Layout

  /** A JSON file of a document folder: unparseable, or a parsed object. */
  datatype JsonFile = Corrupt | Parsed(doc: Doc)

  datatype NamedFile = NamedFile(name: String, content: JsonFile)

  /** A document folder: its name and its files, in sorted order. */
  datatype DocFolder = DocFolder(name: String, files: seq<NamedFile>)

  /** A section before and after embedding (`doc`, `section_title`, `content`, `embedding`). */
  datatype Section = Section(doc: String, sectionTitle: String, content: String)
  datatype Embedded = Embedded(doc: String, sectionTitle: String, content: String, embedding: seq<real>)

  /** The loop variables `current_heading` (initially `None`) and `section_text`. */
  datatype State = State(heading: Option<String>, text: String)

  const Init := State(None, [])

  /** `paragraph_title` and `doc_title` both open a section. */
  predicate IsHeading(e: Elem) {
    e.kind == Some("paragraph_title") || e.kind == Some("doc_title")
  }

  predicate IsText(e: Elem) {
    e.kind == Some("text")
  }

  /** `element.get("text", "").strip()`. */
  function Content(e: Elem): String {
    Strip(e.text.GetOr([]))
  }

  predicate Truthy(o: Option<String>) {
    o.Some? && o.value != []
  }

  function Flush(st: State, doc: String): seq<Section> {
    if Truthy(st.heading) && st.text != [] then [Section(doc, st.heading.value, Strip(st.text))] else []
  }

  /** A non-heading element: a `text` appends its stripped line, but only under a truthy heading. */
  function Step(st: State, e: Elem): State {
    if IsText(e) && Truthy(st.heading) then State(st.heading, st.text + (Strip(Content(e)) + "\n")) else st
  }

  function Opened(e: Elem): State {
    State(Some(Content(e)), [])
  }

  /** The loop over one document's elements from state `st`, then the final flush. */
  function Run(st: State, es: seq<Elem>, doc: String): (r: seq<Section>)
    ensures |r| <= |Filter(es, IsHeading)| + (if Truthy(st.heading) then 1 else 0)
    decreases |es|
  {
    if |es| == 0 then Flush(st, doc)
    else
      assert es == [es[0]] + es[1..];
      FilterConcat([es[0]], es[1..], IsHeading);
      if IsHeading(es[0]) then Flush(st, doc) + Run(Opened(es[0]), es[1..], doc)
      else Run(Step(st, es[0]), es[1..], doc)
  }

  /** Every section names its folder, has a non-blank title, and stripped content. */
  predicate WellFormed(sec: Section, doc: String) {
    sec.doc == doc && sec.sectionTitle != [] && Trimmed(sec.content)
  }

  /** The headings the machine holds are stripped, so every emitted title is too. */
  lemma {:induction false} RunWellFormed(st: State, es: seq<Elem>, doc: String)
    requires st.heading.Some? ==> Trimmed(st.heading.value)
    ensures forall i :: 0 <= i < |Run(st, es, doc)| ==>
      WellFormed(Run(st, es, doc)[i], doc) && Trimmed(Run(st, es, doc)[i].sectionTitle)
    decreases |es|
  {
    if |es| > 0 {
      if IsHeading(es[0]) {
        RunWellFormed(Opened(es[0]), es[1..], doc);
        assert Run(st, es, doc) == Flush(st, doc) + Run(Opened(es[0]), es[1..], doc);
      } else {
        RunWellFormed(Step(st, es[0]), es[1..], doc);
        assert Run(st, es, doc) == Run(Step(st, es[0]), es[1..], doc);
      }
    }
  }

  /** `data.get("elements", [])` of a parsed file; a corrupt file contributes nothing. */
  function ElementsOf(f: NamedFile): seq<Elem> {
    if EndsWith(f.name, ".json") && f.content.Parsed? then f.content.doc.elements else []
  }

  /** The elements of a document folder: the state carries over from one file to the next. */
  function FolderElements(files: seq<NamedFile>): seq<Elem> {
    if |files| == 0 then [] else ElementsOf(files[0]) + FolderElements(files[1..])
  }

  function FolderSections(d: DocFolder): seq<Section> {
    Run(Init, FolderElements(d.files), d.name)
  }

  /** All sections of a collection, folder after folder. */
  function CollectionSections(folders: seq<DocFolder>): seq<Section> {
    if |folders| == 0 then [] else FolderSections(folders[0]) + CollectionSections(folders[1..])
  }

  /** Each section gains `model.encode(content)`. */
  function Embed(sections: seq<Section>, encode: String -> seq<real>): (r: seq<Embedded>)
    ensures |r| == |sections|
    ensures forall i :: 0 <= i < |r| ==>
      r[i] == Embedded(sections[i].doc, sections[i].sectionTitle, sections[i].content, encode(sections[i].content))
  {
    if |sections| == 0 then []
    else
      var s := sections[0];
      [Embedded(s.doc, s.sectionTitle, s.content, encode(s.content))] + Embed(sections[1..], encode)
  }

  /** The `.jsonl` records of one collection. */
  function Collection(folders: seq<DocFolder>, encode: String -> seq<real>): seq<Embedded> {
    Embed(CollectionSections(folders), encode)
  }

  // ---------------------------------------------------------------------------
  // Reference definition: one section per heading segment

  function NextHeading(es: seq<Elem>): (i: nat)
    ensures i <= |es|
    ensures forall j :: 0 <= j < i ==> !IsHeading(es[j])
    ensures i < |es| ==> IsHeading(es[i])
  {
    if |es| == 0 || IsHeading(es[0]) then 0 else 1 + NextHeading(es[1..])
  }

  /** One line per `text` element: its stripped text and a newline. */
  function Lines(es: seq<Elem>): String {
    if |es| == 0 then [] else (if IsText(es[0]) then Content(es[0]) + "\n" else []) + Lines(es[1..])
  }

  /**
   * The section of a heading and the elements up to the next heading: present exactly when
   * the stripped heading is non-blank and some `text` follows; its content is the stripped
   * concatenation of the lines.
   */
  function SectionOf(heading: Elem, segment: seq<Elem>, doc: String): seq<Section> {
    if Content(heading) != [] && |Filter(segment, IsText)| > 0 then
      [Section(doc, Content(heading), Strip(Lines(segment)))]
    else []
  }

  function Headed(es: seq<Elem>, doc: String): seq<Section>
    requires |es| == 0 || IsHeading(es[0])
    decreases |es|
  {
    if |es| == 0 then []
    else
      var q := 1 + NextHeading(es[1..]);
      SectionOf(es[0], es[1..q], doc) + Headed(es[q..], doc)
  }

  /** Sections by segment: text before the first heading is dropped. */
  function Sections(es: seq<Elem>, doc: String): seq<Section> {
    Headed(es[NextHeading(es)..], doc)
  }

  function Absorb(st: State, segment: seq<Elem>): (a: State)
    ensures a.heading == st.heading
    decreases |segment|
  {
    if |segment| == 0 then st else Absorb(Step(st, segment[0]), segment[1..])
  }

  /** Under a truthy heading every `text` line is appended; otherwise nothing is. */
  lemma {:induction false} AbsorbText(st: State, segment: seq<Elem>)
    ensures Absorb(st, segment).text == if Truthy(st.heading) then st.text + Lines(segment) else st.text
    decreases |segment|
  {
    if |segment| > 0 {
      var e := segment[0];
      var rest := segment[1..];
      AbsorbText(Step(st, e), rest);
      assert Lines(segment) == (if IsText(e) then Content(e) + "\n" else []) + Lines(rest);
      if IsText(e) && Truthy(st.heading) {
        StripIdempotent(e.text.GetOr([]));
        assert Step(st, e).text == st.text + (Content(e) + "\n");
        ConcatAssoc(st.text, Content(e) + "\n", Lines(rest));
      } else {
        assert Step(st, e) == st;
        if !IsText(e) {
          assert Lines(segment) == Lines(rest);
        }
      }
    }
  }

  /** The appended lines are empty exactly when the segment holds no `text`. */
  lemma {:induction false} LinesEmpty(es: seq<Elem>)
    ensures Lines(es) == [] <==> |Filter(es, IsText)| == 0
  {
    if |es| > 0 {
      LinesEmpty(es[1..]);
    }
  }

  lemma FlushOfSegment(heading: Elem, segment: seq<Elem>, doc: String)
    ensures Flush(Absorb(Opened(heading), segment), doc) == SectionOf(heading, segment, doc)
  {
    AbsorbText(Opened(heading), segment);
    LinesEmpty(segment);
    assert [] + Lines(segment) == Lines(segment);
  }

  /** The split of the state machine's output at the first heading. */
  predicate SplitsAt(st: State, es: seq<Elem>, doc: String) {
    var p := NextHeading(es);
    Run(st, es, doc) == Flush(Absorb(st, es[..p]), doc) + Headed(es[p..], doc)
  }

  lemma SplitAtHeading(st: State, es: seq<Elem>, doc: String)
    requires |es| > 0 && IsHeading(es[0])
    requires SplitsAt(Opened(es[0]), es[1..], doc)
    ensures SplitsAt(st, es, doc)
  {
    assert es[..0] == [] && es[0..] == es;
    var rest := es[1..];
    var p' := NextHeading(rest);
    FlushOfSegment(es[0], rest[..p'], doc);
    assert rest[..p'] == es[1..1 + p'];
    assert rest[p'..] == es[1 + p'..];
  }

  lemma SplitAtOther(st: State, es: seq<Elem>, doc: String)
    requires |es| > 0 && !IsHeading(es[0])
    requires SplitsAt(Step(st, es[0]), es[1..], doc)
    ensures SplitsAt(st, es, doc)
  {
    var rest := es[1..];
    var p := NextHeading(es);
    assert es[..p][1..] == rest[..p - 1];
    assert rest[p - 1..] == es[p..];
  }

  lemma {:induction false} RunSplit(st: State, es: seq<Elem>, doc: String)
    ensures SplitsAt(st, es, doc)
    decreases |es|
  {
    if |es| == 0 {
      assert es[..0] == [];
    } else if IsHeading(es[0]) {
      RunSplit(Opened(es[0]), es[1..], doc);
      SplitAtHeading(st, es, doc);
    } else {
      RunSplit(Step(st, es[0]), es[1..], doc);
      SplitAtOther(st, es, doc);
    }
  }

  /** The loop emits exactly the sections of the reference definition. */
  lemma RunIsSections(es: seq<Elem>, doc: String)
    ensures Run(Init, es, doc) == Sections(es, doc)
  {
    RunSplit(Init, es, doc);
  }

  /** A manifest written by the layout step has no top-level `elements`: it yields no sections. */
  lemma {:induction false} LayoutManifestsYieldNothing(files: seq<NamedFile>, m: Layout.Manifest)
    requires forall i :: 0 <= i < |files| ==> files[i].content == Parsed(DocOf(m))
    ensures FolderElements(files) == []
    ensures Run(Init, FolderElements(files), "") == []
  {
    if |files| > 0 {
      LayoutManifestsYieldNothing(files[1..], m);
    }
  }
}
