# PDF persona ranking pipeline — a Dafny model

The system reads the PDFs of a document collection and ranks their sections and text
blocks against a query built from a persona and a job description. It is a chain of
scripts; this project models the logic of each one:

- **Layout** (`step1_paddle.py`). This step renders each PDF page, runs a layout
  detector on it, and turns every detected box into a manifest element. Boxes are put in
  reading order by their top edge. The element type is the box's lower-cased label, and
  titles and text receive the native PDF text clipped to the box. A fixed-size worker
  pool processes the pages, and the results are collected in page order.
- **SectionTexts** (`step2_extract_only_texts.py`). This step rebuilds title-led sections
  from a manifest. A `paragraph_title` closes the pending section, and `text` elements
  add blocks to it.
- **Headings** (`step2_extract_only_headings.py`). This step lists the non-blank
  `paragraph_title` texts of every layout manifest in a collection.
- **SectionEmbeddings** (`step3_embeddings.py`) and **TextEmbeddings**
  (`step3_embeddings_text.py`). These steps group elements into sections, or read back
  the sections of step 2, and attach an embedding to each record.
- **Ranking** (`step4_ranking.py`). This step scores sections against the query, sorts
  them by decreasing similarity, and greedily keeps up to ten whose embeddings are not
  too close to one already kept.
- **TextRanking** and **Cleaning** (`step4_ranking_text.py`). These steps merge text
  blocks whose cleaned text coincides, keeping the one most similar to the query. The
  survivors are then sorted, and those with similarity above 0.2 are written out.

Some operations are foreign: the layout detector, the rasteriser, the PDF text layer,
the sentence encoder, cosine similarity and floating-point rounding. They enter the
model as values or function-valued parameters, so every property holds whatever they
compute, with two exceptions that name their hypothesis. `TextRanking.DedupKeepsBest`
assumes `ExactlyRounded`: rounding leaves every block's similarity unchanged.
`Layout.ManifestPagesStrictlyIncrease` assumes the detector returns at most one output
per image.

Supporting modules:

- `Optional`: missing JSON keys.
- `Seqs`: filter, map, flatten and their permutation lemmas.
- `Text`: Python's `strip`, `lower` and `" ".join`, and `re.sub(r'\s+', ' ', …)`.
- `Paths`: `os.path.basename` and `os.path.splitext`.
- `StableSort`: Python's stable `sorted` with a key.
- `ManifestView`: the manifest as the later scripts read it back from JSON.

The model turns early returns and exceptions into explicit outcomes:

- `ProcessLayoutResult` marks a page failed where the sort key raises and
  `process_layout_result` catches the exception.
- `ProcessPdf` returns `DocumentNotFound` for the `FileNotFoundError` that the outer
  handler catches (step1_paddle.py:158-160, 258-261). It returns `NoImages` for the
  early `return []` when no page converts (step1_paddle.py:194-196), which raises
  nothing.
- `RankTextFile` returns `None` where indexing the first unique entry raises
  `IndexError` (step4_ranking_text.py:139). Nothing catches it, so it ends the loop over
  the files. `RankAll` models this: the files before it are ranked, and it and every
  later file are not.

The text ranking compares a block's unrounded similarity with the rounded similarity
already stored for its key, as the code does. That is why `TextRanking.Candidate` keeps
both values.

## Model

| member | source | states |
|---|---|---|
| Layout.ScaleRect | step1_paddle.py:86-92 | Fails exactly when the pixmap has a zero dimension or the bbox is not four numbers; otherwise each corner times the pixel size equals the bbox coordinate times the page size in points (exact real arithmetic) |
| Layout.ScaleRectInverse | step1_paddle.py:86-92 | Scaling the clip rectangle back by pixel size over page size recovers the detector's bbox exactly over reals (floating-point rounding is not modelled) |
| Layout.ScaleRectUnit | step1_paddle.py:86-92 | When pixels and points coincide, the clip rectangle is the bbox itself |
| Layout.ExtractText | step1_paddle.py:80-97 | The extracted text is always stripped; it is empty when the page geometry is unavailable or the bbox is not four numbers; otherwise it is exactly the stripped PDF text inside the bbox scaled to points, or empty when the text layer yields nothing |
| Layout.ExtractTextUnitScale | step1_paddle.py:80-97 | At unit scale the extracted text is the stripped clip of the bbox, empty when the text layer yields nothing |
| Layout.ElementOf | step1_paddle.py:119-138 | An element carries its id, the lower-cased label (`unknown` when absent), the score and the coordinates (four zeros when absent); an element with one of the three textual labels has the text extracted from the page under its coordinates, and any other label gets empty text |
| Layout.NonTextualIgnoresTextLayer | step1_paddle.py:126-128 | An element whose label is not textual is the same whatever the PDF text layer contains, and its text is empty |
| Layout.Enumerate | step1_paddle.py:119-139 | One element per sorted box, with consecutive ids starting at the given first id |
| Layout.CountKinds | step1_paddle.py:124 | The counts map has exactly the labels seen as keys, each mapped to how often it occurs |
| Layout.CountKindsTotal | step1_paddle.py:124 | The counts add up to the number of boxes |
| Layout.ProcessLayoutResult | step1_paddle.py:99-146 | The page number is the 0-based index plus one; no boxes gives an empty page without error; the page fails exactly when some box has a coordinate too short to sort on, and a failed page has no elements and no counts; otherwise there is one element per box, ids run from 1, textual elements carry the text extracted under their coordinates, and non-textual elements have empty text |
| Layout.PageElementsOrdered | step1_paddle.py:117 | The elements of a page appear in non-decreasing order of their top edge |
| Layout.ReadingOrderStable | step1_paddle.py:117 | Among elements with the same top edge, the detector's order is kept |
| Layout.PageKindsArePermutedLabels | step1_paddle.py:117-139 | The element types of a page are a permutation of the lower-cased box labels |
| Layout.PageCountsConsistent | step1_paddle.py:119-139 | `element_counts` agrees with the types of the elements actually emitted and sums to their number |
| Layout.ProcessPage | step1_paddle.py:32-78 | A failed detection yields no results and zero time; otherwise result `i` is `ProcessLayoutResult` of detector output `i` for that page, the time is the detector's, and every result carries the page's 1-based number |
| Layout.RasterizedFrom | step1_paddle.py:157-183 | The converted pages are exactly the pages that rasterise, in increasing order; a page that fails is skipped, not fatal |
| Layout.WorkerOutcomes | step1_paddle.py:199-213 | The pool yields one outcome per converted page, in submission order |
| Layout.FanInIsConcatenation | step1_paddle.py:218-221 | The collected results are the per-page result lists concatenated in submission order |
| Layout.FanInIsSum | step1_paddle.py:218-222 | The total layout time is the sum of the per-page detector times (equal over reals; see "Left out" on fold order) |
| Layout.FailedPageContributesNothing | step1_paddle.py:218-222 | A page whose worker failed adds neither results nor time to the fan-in |
| Layout.ProcessPdf | step1_paddle.py:185-261 | The run reports a missing document exactly when the file does not exist, and "no images" exactly when no page rasterises; a written manifest names the document and counts between one and all of its pages |
| Layout.ManifestPagesAreCollected | step1_paddle.py:237-244 | `total_pages` is the number of converted pages and `pages` is the fan-in of the workers' results |
| Layout.ManifestLayoutTime | step1_paddle.py:237-244 | `layout_time_total` is the sum of the workers' detector times |
| Layout.ManifestPagesRasterized | step1_paddle.py:167-244 | Every page number in the manifest names a page of the PDF that rasterised |
| Layout.CollectedPagesDetected | step1_paddle.py:61-64 | Every collected page result is `ProcessLayoutResult` of some output `j` of the detector on some rasterised page `n`, with `pdf[n]` as its page |
| Layout.ManifestPagesDetected | step1_paddle.py:212-244 | Every page of a written manifest is `ProcessLayoutResult(o, n, pdf[n])` for a rasterised page `n` and an output `o` of the detector on `n`: the manifest holds nothing the detector did not produce |
| Layout.ManifestPageOrder | step1_paddle.py:212-244 | The manifest's page results appear in non-decreasing page order despite the parallel processing |
| Layout.ManifestPagesStrictlyIncrease | step1_paddle.py:212-244 | When each detection has at most one output, page numbers strictly increase and there are no more page results than converted pages |
| Layout.MaxWorkers | step1_paddle.py:149-153 | An explicit worker count is kept; the default is the smaller of the CPU count and 4 |
| Layout.TitleCount | step1_paddle.py:263-275 | The reported title count never exceeds the number of elements |
| Layout.TitleCountIsReportedTitles | step1_paddle.py:263-275 | The title count is the number of elements, over all pages in order, that are `doc_title` or `paragraph_title` with non-blank text |
| Layout.TitleCountConcat | step1_paddle.py:268-273 | The title count is additive over page results |
| ManifestView.DocOf | step1_paddle.py:237-244 | A manifest read back names its document, has one page per page result and no top-level `elements` list |
| SectionTexts.Run | step2_extract_only_texts.py:27-60 | The loop emits at most one section per `paragraph_title`, plus one for a title pending at the start |
| SectionTexts.ProcessFile | step2_extract_only_texts.py:10-60 | A manifest yields at most one section per `paragraph_title` |
| SectionTexts.RunIsSections | step2_extract_only_texts.py:27-60 | The loop yields exactly one section per title segment. A section exists when the raw title is non-empty and a `text` follows before the next title. Its title is the stripped title and its text is the stripped blocks joined by single spaces. Its page is that of the first `text`. Elements before the first title are dropped |
| SectionTexts.AbsorbBlocks | step2_extract_only_texts.py:47-51 | Within a segment the pending blocks grow by the raw texts of its `text` elements, in order |
| SectionTexts.AbsorbPage | step2_extract_only_texts.py:47-50 | The recorded page number is that of the first `text` after the title, and later texts do not change it |
| SectionTexts.OthersIgnored | step2_extract_only_texts.py:31-51 | Elements that are neither `paragraph_title` nor `text` do not change the output |
| Headings.ElemHeadings | step2_extract_only_headings.py:31-39 | Every heading is non-blank, stripped, at level `paragraph_title` and tagged with the document title; there are no more headings than elements |
| Headings.ElemHeadingsAreNamedTitles | step2_extract_only_headings.py:31-39 | The headings are exactly the `paragraph_title` elements with non-blank stripped text, mapped in order: none added, none lost |
| Headings.PagesHeadingsConcat | step2_extract_only_headings.py:30-39 | Walking page by page gives the headings of all the manifest's elements in page order |
| Headings.DocHeadingsSource | step2_extract_only_headings.py:27-39 | The i-th heading of a manifest is the i-th named title among its elements, tagged with the stem of the manifest's `document` |
| Headings.OnlyLayoutFilesCount | step2_extract_only_headings.py:19-21 | Files not named `parallel_layout_results*.json` contribute nothing, whatever they contain |
| Headings.CollectionHeadings | step2_extract_only_headings.py:41-45 | A collection's file is written exactly when at least one heading was found, and it holds all of them |
| SectionEmbeddings.Run | step3_embeddings.py:43-66 | The loop emits at most one section per heading element, plus one for a heading pending at the start |
| SectionEmbeddings.RunWellFormed | step3_embeddings.py:47-66 | Every section names its document folder and has a non-blank, stripped title and stripped content |
| SectionEmbeddings.RunIsSections | step3_embeddings.py:29-66 | The loop yields exactly one section per heading segment. A section exists when the stripped heading is non-blank and a `text` follows before the next heading. Its content is the stripped concatenation of one line per text. Text before the first heading is dropped |
| SectionEmbeddings.AbsorbText | step3_embeddings.py:57-58 | Under a non-blank heading every `text` appends its stripped line and a newline; under none, nothing is appended |
| SectionEmbeddings.Embed | step3_embeddings.py:72-73 | Every section gains the encoder's embedding of its content, in order, with nothing else changed |
| SectionEmbeddings.LayoutManifestsYieldNothing | step3_embeddings.py:42-43 | A folder of layout manifests, which carry no top-level `elements`, yields no sections |
| TextEmbeddings.RecordEntries | step3_embeddings_text.py:44-57 | Every entry has non-blank stripped text and the encoder's embedding of that text; there are no more entries than records |
| TextEmbeddings.RecordEntriesAreKeptRecords | step3_embeddings_text.py:44-57 | The entries are exactly the records whose stripped text is non-blank, mapped in order |
| TextEmbeddings.RecordEntriesConcat | step3_embeddings_text.py:44-57 | The entries of consecutive record lists are the concatenation of their entries, so input order is kept |
| TextEmbeddings.EntrySource | step3_embeddings_text.py:45-55 | The i-th entry carries the stripped text, title and document title and the page number of the i-th kept record |
| Ranking.Query | step4_ranking.py:37 | The query is the persona, then ". ", then the job |
| Ranking.Score | step4_ranking.py:41-49 | There is at most one scored section per line |
| Ranking.ScoreIsUsableLines | step4_ranking.py:41-49 | The scored sections are exactly the lines that parse and carry an embedding, in file order, each with its similarity to the query embedding |
| Ranking.ByRelevance | step4_ranking.py:54 | The sort is a permutation of the scored sections, in non-increasing similarity |
| Ranking.SelectTop | step4_ranking.py:55-64 | The picks are at most ten increasing positions whose embeddings are pairwise not above 0.9 similar. Every position skipped before the last pick, or skipped while fewer than ten were kept, is above 0.9 similar to an earlier pick. The output is the picked sections without their embeddings |
| Ranking.RankCollection | step4_ranking.py:33-64 | The collection is skipped exactly when persona and job are both empty; otherwise the output is the greedy selection over the sections sorted by similarity to the encoded query |
| Ranking.SelectionOrdered | step4_ranking.py:54-64 | Picks taken from a list sorted by similarity are themselves in non-increasing similarity |
| Ranking.NoRedundancyTakesPrefix | step4_ranking.py:55-64 | When no two embeddings are above 0.9 similar, the selection is the first ten sections, or all of them when there are fewer |
| Ranking.RedundancyPersists | step4_ranking.py:24-25 | A section redundant with the picks so far stays redundant after more picks |
| Cleaning.DropBullet | step4_ranking_text.py:30 | Dropping a leading bullet only removes a prefix of the text |
| Cleaning.DropBulletMatches | step4_ranking_text.py:30 | Text that does not start with `•`, `-` or `*` is unchanged; otherwise the removed prefix is the bullet and the whitespace run after it, and the result is empty or starts with a non-space |
| Cleaning.BulletExample | step4_ranking_text.py:30 | Only one bullet is dropped: `* - x` becomes `- x` |
| Cleaning.TagLength | step4_ranking_text.py:31 | The matched tag has length 0, 3, 4 or 10 and fits in the text |
| Cleaning.TagLengthMatches | step4_ranking_text.py:31 | The tag is 3 long exactly when the text starts with `tip` in any case, 4 exactly when it starts with `note` and not `tip`, 10 exactly when it starts with `additional` and neither of those, and 0 otherwise; since `tip` is tried first, `tips?` never matches more |
| Cleaning.DropTag | step4_ranking_text.py:31 | Dropping a leading tag only removes a prefix of the text |
| Cleaning.DropTagMatches | step4_ranking_text.py:31 | Text with no tag is unchanged; otherwise the removed prefix is the tag, one optional colon and the whitespace run after them, and the result is empty or starts with a non-space |
| Cleaning.TagInsideWord | step4_ranking_text.py:31 | The tag has no word boundary: `notebook` becomes `book` |
| Cleaning.PluralTagKeepsS | step4_ranking_text.py:31 | `Tips: x` matches `tip` only and becomes `s: x` |
| Cleaning.CleanTidy | step4_ranking_text.py:27-32 | The normal form is stripped, has only single-space whitespace runs, and contains no upper-case letter |
| Cleaning.UntagIsShortSuffix | step4_ranking_text.py:30-32 | After whitespace normalisation, cleaning keeps a suffix of the lower-cased text, removing at most 14 characters |
| Cleaning.CleanBlank | step4_ranking_text.py:27-32 | Text made only of whitespace cleans to the empty string |
| Text.Strip | step4_ranking_text.py:96 | `strip` returns text with no whitespace at either end and never grows |
| Text.StripSlice | step4_ranking_text.py:96 | `strip` returns a contiguous slice of the input, with only whitespace outside it |
| Text.StripBlank | step4_ranking_text.py:99 | Stripped text is empty exactly when the input is all whitespace |
| Text.StripIdempotent | step3_embeddings.py:45-58 | Stripping twice is stripping once |
| Text.CollapseSpaces | step4_ranking_text.py:29 | Collapsing leaves no run of two whitespace characters, keeps emptiness, and keeps whether the text starts or ends with whitespace |
| Text.CollapseRun | step4_ranking_text.py:29 | A whitespace run between non-space text becomes exactly one space, and the parts on either side are collapsed independently |
| Text.CollapseConcat | step4_ranking_text.py:29 | Collapsing works part by part when the first part does not end in whitespace |
| Text.CollapseNoSpace | step4_ranking_text.py:29 | Text without whitespace is unchanged |
| Text.CollapseKeepsNonSpace | step4_ranking_text.py:29 | Collapsing whitespace keeps every other character, in order |
| Text.ToLower | step4_ranking_text.py:32 | Lowering keeps the length and lowers each character in place |
| Text.ToLowerFacts | step4_ranking_text.py:32 | Lowered text has no upper-case letter, keeps its whitespace positions, and lowering again changes nothing |
| Text.JoinLength | step2_extract_only_texts.py:37 | A join has the parts' total length plus one separator between each pair of parts |
| StableSort.SortBy | step1_paddle.py:117 | The key sort is a permutation of its input, in non-decreasing key order |
| StableSort.SortByStable | step1_paddle.py:117 | For every key value, the elements with that key keep their input order |
| Paths.Basename | step2_extract_only_texts.py:18 | The base name is a slash-free suffix of the path, preceded by a slash when it is not the whole path |
| Paths.BasenameAfterSlash | step2_extract_only_texts.py:18 | The base name of `dir/name` is `name` |
| Paths.SplitExtRoot | step2_extract_only_headings.py:28 | The root is a prefix of the name; when shorter, it stops at the last dot, and some character before that dot is not a dot |
| Paths.RFindBeforeTail | step2_extract_only_headings.py:28 | When the text after some `c` holds no `c`, that `c` is the last one |
| Paths.StemOfDocumentPath | step2_extract_only_headings.py:28 | The document title of `dir/name.ext` is `name` |
| TextRanking.Candidates | step4_ranking_text.py:85-121 | There are no more candidates than lines, and none exactly when no line parses with non-blank text and a non-empty embedding |
| TextRanking.LineCandidates | step4_ranking_text.py:85-121 | A line gives one candidate exactly when it parses with non-blank text and a non-empty embedding, and none otherwise |
| TextRanking.CandidatesOfLine | step4_ranking_text.py:85-121 | A one-line file gives `CandidateOf` that line when it is usable and nothing when it is skipped |
| TextRanking.CandidatesConcat | step4_ranking_text.py:85-121 | Reading lines `a + b` gives the candidates of `a` followed by those of `b`: each line is handled on its own, in file order |
| TextRanking.CandidatesIsFlatMap | step4_ranking_text.py:85-121 | The candidates are the concatenation, in file order, of what each line gives |
| TextRanking.CandidatesAreUsableLines | step4_ranking_text.py:85-121 | There is one candidate per usable line, in order: candidate `i` is `CandidateOf` the `i`-th usable line |
| Seqs.FlatMapKeeps | step4_ranking_text.py:85-121 | When each element gives one item if it is kept and none otherwise, the flat map has one item per kept element, in order |
| Seqs.FlattenIndex | step1_paddle.py:218-220 | Every element of a flattened list is element `j` of some inner list `i` |
| TextRanking.Insert | step4_ranking_text.py:123-128 | A block with a new key is appended; with a key held at slot `k`, the table keeps its length, slot `k` becomes the new block exactly when its raw similarity exceeds the stored similarity (otherwise it is unchanged), and every other slot is unchanged |
| TextRanking.Dedup | step4_ranking_text.py:82-130 | The table has at most one entry per block and is empty exactly when there were no blocks |
| TextRanking.DedupKeys | step4_ranking_text.py:123-130 | The table's keys are the distinct cleaned texts in order of first occurrence, as a dict keeps them |
| TextRanking.DedupKeysDistinct | step4_ranking_text.py:123-130 | No cleaned text occurs twice in the table |
| TextRanking.DedupKeyCover | step4_ranking_text.py:123-130 | Every cleaned text seen has an entry, and nothing else does |
| TextRanking.DedupMembers | step4_ranking_text.py:123-128 | Every table entry is one of the blocks read |
| TextRanking.UniqKeysOrder | step4_ranking_text.py:123-130 | The reference key list lists each key in order of its first occurrence |
| TextRanking.DedupKeepsBest | step4_ranking_text.py:123-128 | With exact rounding, each entry is the first block of its key with the highest similarity |
| TextRanking.ByScore | step4_ranking_text.py:137 | The sort is a permutation of the table, in non-increasing rounded similarity |
| TextRanking.Select | step4_ranking_text.py:143-154 | The selection never grows, and every selected entry has similarity above 0.2 |
| TextRanking.SelectSorted | step4_ranking_text.py:137-154 | The output is a permutation of the table entries above 0.2, stripped of embeddings, in non-increasing similarity |
| TextRanking.RankTextFile | step4_ranking_text.py:70-154 | A file yields no output exactly when none of its lines is usable, where reading the first unique entry would raise |
| TextRanking.RankAll | step4_ranking_text.py:61-139 | Files are ranked in order up to the first one with no usable line, which ends the run; every file before it yields its own ranking |
| TextRanking.RankAllComplete | step4_ranking_text.py:61-139 | All files are ranked exactly when each has a usable line, and no file at or after one without a usable line is ranked |
| TextRanking.RankTextFileOutput | step4_ranking_text.py:130-154 | A written output lists the deduplicated blocks above 0.2, each once, in non-increasing similarity |
| TextRanking.IsEmbeddingRedundant | step4_ranking_text.py:49-58 | The early-exit loop answers true exactly when some existing embedding is more than the threshold similar |

## Left out

- Process pool, `init_worker`, thread-count environment variables, `gc`, timing, and
  printing are not modelled. The pool is treated as an order-preserving map, the
  detector time is an input, and the wall-clock `processing_time` field is not
  modelled.
- The layout detector, rasteriser, PDF text layer, sentence encoder, cosine similarity
  and `round(…, 4)` are parameters, not definitions. Their floating-point behaviour,
  dimension-mismatch exceptions and the `float(round(score, 3))` of the confidence are
  not modelled (the score is kept as given).
- Directory traversal, file sorting and JSON reading and writing are not modelled.
  Files arrive as already-parsed values in walk order, and the output files are the
  returned values.
- Collection-name derivation in step 4 (`filename.split("_")`, `replace(".jsonl", "")`)
  and the output file names are not modelled.
- JSON `null` versus a missing key, and values of the wrong JSON type, are not
  distinguished: both read as the key's default. A `null` text in step 2 would raise in
  the source.
- Headings: an invalid JSON file makes the script raise; the model assumes every
  layout file parses.
- Step 3: an element that is not an object would raise; the model assumes elements are
  objects.
- A PDF that exists but that `fitz.open` cannot open (step1_paddle.py:162) is not
  represented. A document is either missing or a list of pages. The source catches that
  exception at step1_paddle.py:258-261 and returns `[]`, as it does for a missing file.
- `element_counts` is a map, so the first-occurrence key order of the source's dict
  (step1_paddle.py:124) is not kept.
- The constant `optimization` field of the manifest (step1_paddle.py:241) is omitted.
- `step4_ranking_text.py` raises when `challenge1b_input.json` is missing; the model
  takes the input file as given (`RankTextFile` takes an `InputFile`, not an option).
- The `embedding.size == 0` test of `step4_ranking_text.py` is not modelled
  separately: the embedding is a flat list already known to be non-empty, so the test
  never fires.
- The `total_entries` counter and the duplicate counts of the summary are printed only
  and are not modelled.
- The image size in pixels is an input of `Geometry`, not derived from the DPI.
- Cleaning.Clean: the MD5 hash of the cleaned text is replaced by the cleaned text
  itself, so two different texts whose digests collide are not merged. Lowering and
  `re.IGNORECASE` are modelled on ASCII letters only.
- Text.ToLower: lowers ASCII letters only; Unicode case mapping is not modelled.
- TextRanking.DedupKeepsBest: proved only under `ExactlyRounded` (every block's rounded
  similarity equals the unrounded one). The source compares a new block's unrounded
  similarity with the stored rounded one, so with real rounding a later block can
  replace an equally good one.
- Cleaning.UntagIsShortSuffix: stated after the whitespace normalisation step, since
  `re.sub(r'\s+', ' ', …)` itself removes arbitrarily many characters.
- Layout.ScaleRect: scale factors, coordinates and times are exact reals; the floating-point
  rounding of the source's multiplications and divisions is not modelled, so
  `Layout.ScaleRectInverse` holds over reals only.
- Layout.FanInIsSum: `FanIn` adds the times left to right like `layout_total +=`
  (step1_paddle.py:219-221), while `Sum` folds from the right; the two agree over reals,
  but floating-point addition is not associative and that difference is not modelled.
- Ranking.Score: the exception of a non-numeric or wrongly sized embedding is not
  modelled; a line without an `embedding` key is the one skipped case.
