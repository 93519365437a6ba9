/**
 * `step3_embeddings_text.py`: turns the section files written by the text extraction
 * step into embedding records, one per section whose stripped text is non-blank.
 */
module TextEmbeddings {
  import opened Optional
  import opened Text
  import opened Seqs

  /** A section object as read back: any of its keys may be missing. */
  datatype Record = Record(text: Option<String>, title: Option<String>, docTitle: Option<String>, pageNumber: Option<int>)

  /** A JSON file: unparseable, parsed but not a list, or a list of section objects. */
  datatype SectionFile = Corrupt | NotAList | Sections(records: seq<Record>)

  datatype NamedFile = NamedFile(name: String, content: SectionFile)

  /** A document folder and its files, in sorted order. */
  datatype DocFolder = DocFolder(name: String, files: seq<NamedFile>)

  /** One output line (`doc`, `title`, `page`, `text`, `embedding`). */
  datatype Entry = Entry(doc: String, title: String, page: Option<int>, text: String, embedding: seq<real>)

  /** A record is kept when its stripped `text` is non-blank. */
  predicate HasText(r: Record) {
    Strip(r.text.GetOr([])) != []
  }

  function EntryOf(r: Record, encode: String -> seq<real>): Entry {
    var text := Strip(r.text.GetOr([]));
    Entry(Strip(r.docTitle.GetOr([])), Strip(r.title.GetOr([])), r.pageNumber, text, encode(text))
  }

  /** The entry a record contributes: one when its stripped text is non-blank, none otherwise. */
  function Own(x: Record, encode: String -> seq<real>): (r: seq<Entry>)
    ensures |r| <= 1
    ensures |r| == 1 ==> r[0].text != [] && Trimmed(r[0].text) && r[0].embedding == encode(r[0].text)
  {
    if HasText(x) then [EntryOf(x, encode)] else []
  }

  /** The entries of one list of records, in order. */
  function RecordEntries(rs: seq<Record>, encode: String -> seq<real>): (r: seq<Entry>)
    ensures |r| <= |rs|
    ensures forall i :: 0 <= i < |r| ==> r[i].text != [] && Trimmed(r[i].text) && r[i].embedding == encode(r[i].text)
  {
    if |rs| == 0 then [] else Own(rs[0], encode) + RecordEntries(rs[1..], encode)
  }

  /** A corrupt file, a non-list, or a file not named `*.json` is skipped. */
  function FileEntries(f: NamedFile, encode: String -> seq<real>): seq<Entry> {
    if EndsWith(f.name, ".json") && f.content.Sections? then RecordEntries(f.content.records, encode) else []
  }

  function FilesEntries(files: seq<NamedFile>, encode: String -> seq<real>): seq<Entry> {
    if |files| == 0 then [] else FileEntries(files[0], encode) + FilesEntries(files[1..], encode)
  }

  /** The `.jsonl` lines of a collection, folder after folder. */
  function Collection(folders: seq<DocFolder>, encode: String -> seq<real>): seq<Entry> {
    if |folders| == 0 then [] else FilesEntries(folders[0].files, encode) + Collection(folders[1..], encode)
  }

  /** The entries are exactly the records with text, each mapped in order. */
  lemma {:induction false} RecordEntriesAreKeptRecords(rs: seq<Record>, encode: String -> seq<real>)
    ensures RecordEntries(rs, encode) == Map(Filter(rs, HasText), x => EntryOf(x, encode))
  {
    if |rs| > 0 {
      RecordEntriesAreKeptRecords(rs[1..], encode);
      var first := if HasText(rs[0]) then [rs[0]] else [];
      assert Filter(rs, HasText) == first + Filter(rs[1..], HasText);
      MapConcat(first, Filter(rs[1..], HasText), x => EntryOf(x, encode));
    }
  }

  /** Splitting a file's records splits its entries: the output keeps the input order. */
  lemma {:induction false} RecordEntriesConcat(a: seq<Record>, b: seq<Record>, encode: String -> seq<real>)
    ensures RecordEntries(a + b, encode) == RecordEntries(a, encode) + RecordEntries(b, encode)
  {
    if |a| == 0 {
      assert a + b == b;
    } else {
      assert (a + b)[0] == a[0];
      assert (a + b)[1..] == a[1..] + b;
      RecordEntriesConcat(a[1..], b, encode);
      ConcatAssoc(Own(a[0], encode), RecordEntries(a[1..], encode), RecordEntries(b, encode));
    }
  }

  /** Each entry keeps its record's page number and carries the record's stripped fields. */
  lemma EntrySource(rs: seq<Record>, encode: String -> seq<real>, i: nat)
    requires i < |RecordEntries(rs, encode)|
    ensures var kept := Filter(rs, HasText);
      && i < |kept|
      && RecordEntries(rs, encode)[i].page == kept[i].pageNumber
      && RecordEntries(rs, encode)[i].text == Strip(kept[i].text.GetOr([]))
      && RecordEntries(rs, encode)[i].title == Strip(kept[i].title.GetOr([]))
      && RecordEntries(rs, encode)[i].doc == Strip(kept[i].docTitle.GetOr([]))
  {
    RecordEntriesAreKeptRecords(rs, encode);
  }
}
