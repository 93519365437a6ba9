/**
 * `step4_ranking_text.py`: ranks the text-block embeddings of one collection against the
 * query "persona. job". Blocks whose cleaned text coincides are merged, keeping the one
 * most similar to the query; the survivors are sorted by similarity and those above 0.2
 * are written out.
 */
module TextRanking {
  import opened Optional
  import opened Text
  import opened Seqs
  import StableSort
  import Ranking
  import Cleaning

  /** A line of a text-embedding file: unparseable, or an object whose keys may be missing. */
  datatype Line =
    | Unparseable
    | Entry(doc: Option<String>, file: Option<String>, page: Option<int>, text: Option<String>,
            embedding: Option<seq<real>>)

  /**
   * A block read from a line: missing keys take their defaults, the text is stripped,
   * `key` is its deduplication key, `raw` is the cosine similarity to the query and
   * `similarity` that value rounded.
   */
  datatype Candidate = Candidate(doc: String, file: String, page: int, text: String, key: String,
                                 embedding: seq<real>, raw: real, similarity: real)

  /** An output entry: the block without its embedding. */
  datatype Final = Final(doc: String, file: String, page: int, text: String, similarity: real)

  const MinSimilarity: real := 0.2

  /** A line that parses and has a non-blank text and a non-empty embedding. */
  predicate Usable(l: Line) {
    l.Entry? && Strip(l.text.GetOr([])) != [] && l.embedding.GetOr([]) != []
  }

  function CandidateOf(l: Line, queryEmb: seq<real>, sim: Ranking.Similarity, round: real -> real): Candidate
    requires Usable(l)
  {
    var e := l.embedding.value;
    var text := Strip(l.text.value);
    var raw := sim(e, queryEmb);
    Candidate(l.doc.GetOr([]), l.file.GetOr([]), l.page.GetOr(0), text, Cleaning.Clean(text), e, raw, round(raw))
  }

  /** The candidate a line gives: one when it is usable, none otherwise. */
  function LineCandidates(l: Line, queryEmb: seq<real>, sim: Ranking.Similarity, round: real -> real)
    : (r: seq<Candidate>)
    ensures |r| <= 1
    ensures |r| == 1 <==> Usable(l)
  {
    if Usable(l) then [CandidateOf(l, queryEmb, sim, round)] else []
  }

  /**
   * The lines read from a file, in order: those that fail to parse, are blank or lack an
   * embedding are skipped, each other one gives a candidate.
   */
  function Candidates(lines: seq<Line>, queryEmb: seq<real>, sim: Ranking.Similarity, round: real -> real)
    : (r: seq<Candidate>)
    ensures |r| <= |lines|
    ensures |r| == 0 <==> forall i :: 0 <= i < |lines| ==> !Usable(lines[i])
    decreases |lines|
  {
    if |lines| == 0 then []
    else
      assert forall i :: 1 <= i < |lines| ==> lines[i] == lines[1..][i - 1];
      LineCandidates(lines[0], queryEmb, sim, round) + Candidates(lines[1..], queryEmb, sim, round)
  }

  /** A single line gives its candidate when it is usable and is skipped otherwise. */
  lemma CandidatesOfLine(l: Line, queryEmb: seq<real>, sim: Ranking.Similarity, round: real -> real)
    ensures Candidates([l], queryEmb, sim, round) == if Usable(l) then [CandidateOf(l, queryEmb, sim, round)] else []
  {
    assert [l][1..] == [];
  }

  /** Reading lines one by one is the flat map of `LineCandidates`. */
  lemma {:induction false} CandidatesIsFlatMap(lines: seq<Line>, queryEmb: seq<real>, sim: Ranking.Similarity,
                                              round: real -> real)
    ensures Candidates(lines, queryEmb, sim, round) == FlatMap(lines, l => LineCandidates(l, queryEmb, sim, round))
    decreases |lines|
  {
    if |lines| > 0 {
      CandidatesIsFlatMap(lines[1..], queryEmb, sim, round);
    }
  }

  /** The candidates are exactly the usable lines, in file order, each read by `CandidateOf`. */
  lemma CandidatesAreUsableLines(lines: seq<Line>, queryEmb: seq<real>, sim: Ranking.Similarity,
                                 round: real -> real)
    ensures var u := Filter(lines, Usable);
      && |Candidates(lines, queryEmb, sim, round)| == |u|
      && forall i :: 0 <= i < |u| ==> Candidates(lines, queryEmb, sim, round)[i] == CandidateOf(u[i], queryEmb, sim, round)
  {
    var f := l => LineCandidates(l, queryEmb, sim, round);
    CandidatesIsFlatMap(lines, queryEmb, sim, round);
    FlatMapKeeps(lines, f, Usable);
  }

  /** Reading a file in two parts gives the candidates of the first part, then those of the second. */
  lemma {:induction false} CandidatesConcat(a: seq<Line>, b: seq<Line>, queryEmb: seq<real>, sim: Ranking.Similarity,
                                           round: real -> real)
    ensures Candidates(a + b, queryEmb, sim, round) == Candidates(a, queryEmb, sim, round) + Candidates(b, queryEmb, sim, round)
    decreases |a|
  {
    if |a| == 0 {
      assert a + b == b;
      assert Candidates(a, queryEmb, sim, round) == [];
    } else {
      assert (a + b)[0] == a[0];
      assert (a + b)[1..] == a[1..] + b;
      assert Candidates(a + b, queryEmb, sim, round)
          == LineCandidates(a[0], queryEmb, sim, round) + Candidates(a[1..] + b, queryEmb, sim, round);
      CandidatesConcat(a[1..], b, queryEmb, sim, round);
      ConcatAssoc(LineCandidates(a[0], queryEmb, sim, round), Candidates(a[1..], queryEmb, sim, round),
                  Candidates(b, queryEmb, sim, round));
    }
  }

  /**
   * The deduplication key. The source keys its table on the MD5 digest of the cleaned
   * text; the cleaned text itself is used here, i.e. digests are taken to be collision-free.
   */
  function Key(c: Candidate): String {
    c.key
  }

  /** Position of the entry with the given key, or `|t|` when there is none. */
  function IndexOf(t: seq<Candidate>, key: String): (k: nat)
    ensures k <= |t|
    ensures k < |t| ==> Key(t[k]) == key
    ensures forall j :: 0 <= j < k ==> Key(t[j]) != key
  {
    if |t| == 0 then 0 else if Key(t[0]) == key then 0 else 1 + IndexOf(t[1..], key)
  }

  /**
   * One update of the `unique_texts` dictionary, kept as its list of values in insertion
   * order: a new key is appended; an existing entry is replaced in place when the new raw
   * similarity exceeds the stored, rounded one.
   */
  function Insert(t: seq<Candidate>, c: Candidate): (r: seq<Candidate>)
    ensures |t| <= |r| <= |t| + 1 && |r| > 0
    ensures forall i :: 0 <= i < |r| ==> r[i] == c || (i < |t| && r[i] == t[i])
    ensures forall i :: 0 <= i < |t| && i != IndexOf(t, Key(c)) ==> r[i] == t[i]
    ensures IndexOf(t, Key(c)) == |t| ==> r == t + [c]
    ensures var k := IndexOf(t, Key(c));
      k < |t| ==> |r| == |t| && r[k] == (if c.raw > t[k].similarity then c else t[k])
  {
    var k := IndexOf(t, Key(c));
    if k == |t| then t + [c]
    else if c.raw > t[k].similarity then t[k := c]
    else t
  }

  /** The dictionary after reading all candidates, as its values in insertion order. */
  function Dedup(cs: seq<Candidate>): (r: seq<Candidate>)
    ensures |r| <= |cs|
    ensures |r| == 0 <==> |cs| == 0
  {
    if |cs| == 0 then [] else Insert(Dedup(cs[..|cs| - 1]), cs[|cs| - 1])
  }

  /** Reference: the distinct values of `s`, in order of first occurrence. */
  function UniqKeys(s: seq<String>): (u: seq<String>) {
    if |s| == 0 then []
    else
      var u := UniqKeys(s[..|s| - 1]);
      if s[|s| - 1] in u then u else u + [s[|s| - 1]]
  }

  /** Inserting adds the key of the new entry at the end when it is new, and changes no key otherwise. */
  lemma InsertKeys(t: seq<Candidate>, c: Candidate)
    ensures Map(Insert(t, c), Key) ==
            if Key(c) in Map(t, Key) then Map(t, Key) else Map(t, Key) + [Key(c)]
  {
    var k := IndexOf(t, Key(c));
    var mt := Map(t, Key);
    if k == |t| {
      assert Key(c) !in mt;
      MapConcat(t, [c], Key);
    } else {
      assert mt[k] == Key(c);
      if c.raw > t[k].similarity {
        assert Map(t[k := c], Key) == mt;
      }
    }
  }

  /** The keys of the deduplicated entries are the distinct keys of the candidates, in order of first occurrence. */
  lemma {:induction false} DedupKeys(cs: seq<Candidate>)
    ensures Map(Dedup(cs), Key) == UniqKeys(Map(cs, Key))
  {
    if |cs| > 0 {
      var p := cs[..|cs| - 1];
      var c := cs[|cs| - 1];
      assert cs == p + [c];
      DedupKeys(p);
      DedupSnoc(p, c);
      InsertKeys(Dedup(p), c);
      MapConcat(p, [c], Key);
      UniqKeysSnoc(Map(p, Key), Key(c));
    }
  }

  lemma UniqKeysSnoc(s: seq<String>, x: String)
    ensures UniqKeys(s + [x]) == if x in UniqKeys(s) then UniqKeys(s) else UniqKeys(s) + [x]
  {
    assert (s + [x])[..|s|] == s;
  }

  lemma {:induction false} UniqKeysDistinct(s: seq<String>)
    ensures Distinct(UniqKeys(s))
  {
    if |s| > 0 {
      UniqKeysDistinct(s[..|s| - 1]);
    }
  }

  lemma {:induction false} UniqKeysCover(s: seq<String>)
    ensures forall x :: x in UniqKeys(s) <==> x in s
  {
    if |s| > 0 {
      var n := |s| - 1;
      UniqKeysCover(s[..n]);
      assert s == s[..n] + [s[n]];
    }
  }

  /** Position of the first occurrence of `x` in `s`. */
  function FirstIndex(s: seq<String>, x: String): (i: nat)
    requires x in s
    ensures i < |s| && s[i] == x
    ensures forall j :: 0 <= j < i ==> s[j] != x
  {
    if s[0] == x then 0 else 1 + FirstIndex(s[1..], x)
  }

  lemma FirstIndexPrefix(s: seq<String>, n: nat, x: String)
    requires n <= |s| && x in s[..n]
    ensures FirstIndex(s, x) == FirstIndex(s[..n], x)
  {
    var i := FirstIndex(s[..n], x);
    var k := FirstIndex(s, x);
    assert s[i] == x;
    assert k <= i;
    assert s[..n][k] == x;
  }

  /** `u` lists values of `s` in the order in which they first occur there. */
  predicate InFirstOccurrenceOrder(s: seq<String>, u: seq<String>) {
    && (forall i :: 0 <= i < |u| ==> u[i] in s)
    && forall i, j :: 0 <= i < j < |u| ==> FirstIndex(s, u[i]) < FirstIndex(s, u[j])
  }

  /** The distinct values come out in the order in which they first occur. */
  lemma {:induction false} UniqKeysOrder(s: seq<String>)
    ensures InFirstOccurrenceOrder(s, UniqKeys(s))
  {
    if |s| > 0 {
      var n := |s| - 1;
      var p := s[..n];
      var u := UniqKeys(s);
      var up := UniqKeys(p);
      UniqKeysOrder(p);
      UniqKeysCover(p);
      assert s == p + [s[n]];
      forall x | x in up
        ensures x in s && FirstIndex(s, x) == FirstIndex(p, x) && FirstIndex(s, x) < n
      {
        FirstIndexPrefix(s, n, x);
      }
      if s[n] !in up {
        assert s[n] !in p;
        assert FirstIndex(s, s[n]) == n;
        assert u == up + [s[n]];
      }
      forall i, j | 0 <= i < j < |u|
        ensures FirstIndex(s, u[i]) < FirstIndex(s, u[j])
      {
        assert u[i] == up[i] && up[i] in up;
        if j < |up| {
          assert u[j] == up[j] && up[j] in up;
        }
      }
      forall i | 0 <= i < |u|
        ensures u[i] in s
      {
        if i < |up| {
          assert u[i] == up[i] && up[i] in up;
        }
      }
    }
  }

  /** Every deduplicated entry is one of the candidates. */
  lemma {:induction false} DedupMembers(cs: seq<Candidate>)
    ensures forall i :: 0 <= i < |Dedup(cs)| ==> Dedup(cs)[i] in cs
  {
    if |cs| > 0 {
      var n := |cs| - 1;
      DedupMembers(cs[..n]);
      assert cs == cs[..n] + [cs[n]];
    }
  }

  /** The table after one more candidate. */
  lemma DedupSnoc(p: seq<Candidate>, c: Candidate)
    ensures Dedup(p + [c]) == Insert(Dedup(p), c)
  {
    assert (p + [c])[..|p|] == p;
  }

  /** The table holds each key of the candidates read so far. */
  lemma DedupKeyCover(cs: seq<Candidate>)
    ensures forall x :: x in Map(Dedup(cs), Key) <==> x in Map(cs, Key)
  {
    DedupKeys(cs);
    UniqKeysCover(Map(cs, Key));
  }

  /** No two entries of the table share a key. */
  lemma DedupKeysDistinct(cs: seq<Candidate>)
    ensures Distinct(Map(Dedup(cs), Key))
  {
    DedupKeys(cs);
    UniqKeysDistinct(Map(cs, Key));
  }

  /** The candidate at `i` has the highest raw similarity among those with its key, and is the first to reach it. */
  predicate FirstBest(cs: seq<Candidate>, i: int) {
    && 0 <= i < |cs|
    && forall j :: 0 <= j < |cs| && Key(cs[j]) == Key(cs[i]) ==>
         cs[j].raw <= cs[i].raw && (j < i ==> cs[j].raw < cs[i].raw)
  }

  /** `c` is the first candidate of its key to reach the highest similarity for that key. */
  predicate BestOfKey(cs: seq<Candidate>, c: Candidate) {
    exists i :: 0 <= i < |cs| && FirstBest(cs, i) && cs[i] == c
  }

  /** Every entry of `t` is the best candidate of its key. */
  predicate AllBest(cs: seq<Candidate>, t: seq<Candidate>) {
    forall a :: 0 <= a < |t| ==> BestOfKey(cs, t[a])
  }

  /** Stored similarities are the raw ones. */
  predicate ExactlyRounded(cs: seq<Candidate>) {
    forall j :: 0 <= j < |cs| ==> cs[j].similarity == cs[j].raw
  }

  /**
   * When rounding loses nothing (the stored similarity equals the raw one), each kept
   * entry is the first of the candidates with its key to reach their highest similarity.
   */
  lemma {:induction false} DedupKeepsBest(cs: seq<Candidate>)
    requires ExactlyRounded(cs)
    ensures AllBest(cs, Dedup(cs))
  {
    if |cs| > 0 {
      var p := cs[..|cs| - 1];
      var c := cs[|cs| - 1];
      assert cs == p + [c];
      assert ExactlyRounded(p) && c.similarity == c.raw;
      DedupKeepsBest(p);
      DedupKeysDistinct(p);
      DedupKeyCover(p);
      DedupSnoc(p, c);
      forall k | 0 <= k < |Dedup(cs)|
        ensures BestOfKey(cs, Dedup(cs)[k])
      {
        InsertKeepsBest(p, c, Dedup(p), k);
      }
    }
  }

  /** One insertion step keeps every entry of the table the best of its key. */
  lemma InsertKeepsBest(p: seq<Candidate>, c: Candidate, t: seq<Candidate>, k: nat)
    requires ExactlyRounded(p) && c.similarity == c.raw
    requires AllBest(p, t) && Distinct(Map(t, Key))
    requires forall x :: x in Map(t, Key) <==> x in Map(p, Key)
    requires k < |Insert(t, c)|
    ensures BestOfKey(p + [c], Insert(t, c)[k])
  {
    var m := IndexOf(t, Key(c));
    if k == |t| {
      assert m == |t| && Insert(t, c)[k] == c;
      UnseenKeyOf(p, c, t);
      UnseenKeyIsBest(p, c);
    } else if k == m && c.raw > t[k].similarity {
      assert Insert(t, c)[k] == c;
      var i := BestIndex(p, t[k]);
      ReplacedIsBest(p, c, i);
    } else {
      assert Insert(t, c)[k] == t[k];
      KeptIsBest(p, c, t, k);
    }
  }

  /** A key absent from the table is absent from the candidates it was built from. */
  lemma UnseenKeyOf(p: seq<Candidate>, c: Candidate, t: seq<Candidate>)
    requires forall x :: x in Map(t, Key) <==> x in Map(p, Key)
    requires IndexOf(t, Key(c)) == |t|
    ensures forall j :: 0 <= j < |p| ==> Key(p[j]) != Key(c)
  {
    assert Key(c) !in Map(t, Key);
    forall j | 0 <= j < |p|
      ensures Key(p[j]) != Key(c)
    {
      assert Map(p, Key)[j] == Key(p[j]);
    }
  }

  /** A witness of `BestOfKey`. */
  lemma BestIndex(cs: seq<Candidate>, c: Candidate) returns (i: nat)
    requires BestOfKey(cs, c)
    ensures i < |cs| && FirstBest(cs, i) && cs[i] == c
  {
    i :| 0 <= i < |cs| && FirstBest(cs, i) && cs[i] == c;
  }

  /** A candidate whose key no earlier candidate has is the best of its key. */
  lemma UnseenKeyIsBest(p: seq<Candidate>, c: Candidate)
    requires forall j :: 0 <= j < |p| ==> Key(p[j]) != Key(c)
    ensures BestOfKey(p + [c], c)
  {
    var cs := p + [c];
    assert cs[|p|] == c;
    assert forall j :: 0 <= j < |p| ==> cs[j] == p[j];
    assert FirstBest(cs, |p|);
  }

  /** A candidate that beats the best one of its key so far becomes the best. */
  lemma ReplacedIsBest(p: seq<Candidate>, c: Candidate, i: nat)
    requires FirstBest(p, i) && Key(p[i]) == Key(c) && c.raw > p[i].raw
    ensures BestOfKey(p + [c], c)
  {
    var cs := p + [c];
    assert cs[|p|] == c;
    forall j | 0 <= j < |p| && Key(cs[j]) == Key(c)
      ensures cs[j].raw < c.raw
    {
      assert cs[j] == p[j];
    }
    assert FirstBest(cs, |p|);
  }

  /** An entry the step leaves in place stays the best of its key. */
  lemma KeptIsBest(p: seq<Candidate>, c: Candidate, t: seq<Candidate>, k: nat)
    requires ExactlyRounded(p) && k < |t|
    requires AllBest(p, t) && Distinct(Map(t, Key))
    requires !(k == IndexOf(t, Key(c)) && c.raw > t[k].similarity)
    ensures BestOfKey(p + [c], t[k])
  {
    var i := BestIndex(p, t[k]);
    assert p[i].similarity == p[i].raw;
    if Key(c) == Key(t[k]) {
      assert Map(t, Key)[k] == Key(c);
      assert IndexOf(t, Key(c)) == k;
    }
    FirstBestExtend(p, c, i);
  }

  /** A later candidate that does not beat the best one of a key leaves it the best. */
  lemma FirstBestExtend(p: seq<Candidate>, c: Candidate, i: nat)
    requires FirstBest(p, i)
    requires Key(c) != Key(p[i]) || c.raw <= p[i].raw
    ensures BestOfKey(p + [c], p[i])
  {
    var cs := p + [c];
    forall j | 0 <= j < |cs| && Key(cs[j]) == Key(cs[i])
      ensures cs[j].raw <= cs[i].raw && (j < i ==> cs[j].raw < cs[i].raw)
    {
      if j < |p| {
        assert cs[j] == p[j];
      }
    }
    assert FirstBest(cs, i);
  }

  /** `reverse=True` on the similarity is an ascending sort on its negation. */
  function NegSimilarity(c: Candidate): real {
    -c.similarity
  }

  /** Similarities do not increase along `s`. */
  predicate Descending(s: seq<Candidate>) {
    forall i, j :: 0 <= i < j < |s| ==> s[i].similarity >= s[j].similarity
  }

  /** The unique entries in decreasing similarity; equal similarities keep their insertion order. */
  function ByScore(t: seq<Candidate>): (r: seq<Candidate>)
    ensures multiset(r) == multiset(t)
    ensures Descending(r)
  {
    var r := StableSort.SortBy(t, NegSimilarity);
    assert forall i, j :: 0 <= i < j < |r| ==> NegSimilarity(r[i]) <= NegSimilarity(r[j]);
    r
  }

  predicate Above(c: Candidate) {
    c.similarity > MinSimilarity
  }

  function FinalOf(c: Candidate): Final {
    Final(c.doc, c.file, c.page, c.text, c.similarity)
  }

  /** The output list: the sorted entries above the threshold, without their embeddings. */
  function Select(sorted: seq<Candidate>): (r: seq<Final>)
    ensures |r| <= |sorted|
    ensures forall i :: 0 <= i < |r| ==> r[i].similarity > MinSimilarity
  {
    Map(Filter(sorted, Above), FinalOf)
  }

  /** Filtering keeps a decreasing order. */
  lemma {:induction false} FilterKeepsOrder(s: seq<Candidate>)
    requires Descending(s)
    ensures Descending(Filter(s, Above))
  {
    if |s| > 0 {
      var rest := Filter(s[1..], Above);
      FilterKeepsOrder(s[1..]);
      FilterSubset(s[1..], Above);
      forall j | 0 <= j < |rest|
        ensures s[0].similarity >= rest[j].similarity
      {
        assert rest[j] in s[1..];
        var k :| 0 <= k < |s[1..]| && s[1..][k] == rest[j];
        assert s[k + 1] == rest[j];
      }
      var first := if Above(s[0]) then [s[0]] else [];
      assert Filter(s, Above) == first + rest;
    }
  }

  /** Output similarities do not increase. */
  predicate DescendingOutput(r: seq<Final>) {
    forall i, j :: 0 <= i < j < |r| ==> r[i].similarity >= r[j].similarity
  }

  /** The output is the unique entries above 0.2 (as a multiset), in decreasing similarity. */
  lemma SelectSorted(t: seq<Candidate>)
    ensures multiset(Select(ByScore(t))) == multiset(Map(Filter(t, Above), FinalOf))
    ensures DescendingOutput(Select(ByScore(t)))
  {
    var s := ByScore(t);
    FilterPermutation(s, t, Above);
    MapPermutation(Filter(s, Above), Filter(t, Above), FinalOf);
    FilterKeepsOrder(s);
    var f := Filter(s, Above);
    var r := Select(s);
    forall i, j | 0 <= i < j < |r|
      ensures r[i].similarity >= r[j].similarity
    {
      assert r[i] == FinalOf(f[i]) && r[j] == FinalOf(f[j]);
    }
  }

  /** The embedding of the query `f"{persona}. {job}"`; a missing key reads as an empty string. */
  function QueryEmbedding(input: Ranking.InputFile, encode: String -> seq<real>): seq<real> {
    var (persona, job) := Ranking.PersonaJob(Some(input));
    encode(Ranking.Query(persona, job))
  }

  /**
   * One text-embedding file: `None` when no line is usable (reading the first of an empty
   * list of unique entries raises `IndexError`, and no output is written), otherwise the
   * selected entries.
   */
  function RankTextFile(input: Ranking.InputFile, lines: seq<Line>, encode: String -> seq<real>,
                        sim: Ranking.Similarity, round: real -> real): (r: Option<seq<Final>>)
    ensures r.None? <==> forall i :: 0 <= i < |lines| ==> !Usable(lines[i])
  {
    var cs := Candidates(lines, QueryEmbedding(input, encode), sim, round);
    var t := Dedup(cs);
    if |t| == 0 then None else Some(Select(ByScore(t)))
  }

  /** One `.jsonl` input file: the collection it belongs to and its lines. */
  datatype TextFile = TextFile(input: Ranking.InputFile, lines: seq<Line>)

  /**
   * The loop over the sorted input files. The `IndexError` raised for a file without a
   * usable line is not caught, so it ends the run: the files before it are ranked and
   * written, that file and every later one are not.
   */
  function RankAll(files: seq<TextFile>, encode: String -> seq<real>, sim: Ranking.Similarity,
                   round: real -> real): (r: seq<seq<Final>>)
    ensures |r| <= |files|
    ensures forall i :: 0 <= i < |r| ==>
      RankTextFile(files[i].input, files[i].lines, encode, sim, round) == Some(r[i])
    ensures |r| < |files| ==> RankTextFile(files[|r|].input, files[|r|].lines, encode, sim, round).None?
  {
    UntilNone(seq(|files|, i requires 0 <= i < |files| =>
      RankTextFile(files[i].input, files[i].lines, encode, sim, round)))
  }

  /** Some line of the file yields a block. */
  predicate HasUsable(lines: seq<Line>) {
    exists k :: 0 <= k < |lines| && Usable(lines[k])
  }

  /** Every file is ranked exactly when each has a usable line; otherwise the run stops at the first that has none. */
  lemma RankAllComplete(files: seq<TextFile>, encode: String -> seq<real>, sim: Ranking.Similarity,
                        round: real -> real)
    ensures |RankAll(files, encode, sim, round)| == |files| <==>
      forall i :: 0 <= i < |files| ==> HasUsable(files[i].lines)
    ensures forall j :: 0 <= j < |files| && !HasUsable(files[j].lines) ==> |RankAll(files, encode, sim, round)| <= j
  {
    var r := RankAll(files, encode, sim, round);
    forall j | 0 <= j < |files| && !HasUsable(files[j].lines)
      ensures |r| <= j
    {
      if j < |r| {
        RankTextFileUsable(files[j], encode, sim, round);
      }
    }
    if |r| < |files| {
      RankTextFileUsable(files[|r|], encode, sim, round);
    }
  }

  /** The contract of `RankTextFile`, stated through `HasUsable`. */
  lemma RankTextFileUsable(f: TextFile, encode: String -> seq<real>, sim: Ranking.Similarity, round: real -> real)
    ensures RankTextFile(f.input, f.lines, encode, sim, round).Some? <==> HasUsable(f.lines)
  {
  }

  /** `is_embedding_redundant`: the loop with its early exits decides the redundancy predicate of the section ranking. */
  method IsEmbeddingRedundant(e: seq<real>, existing: seq<seq<real>>, sim: Ranking.Similarity, threshold: real)
    returns (r: bool)
    ensures r <==> Ranking.Redundant(e, existing, sim, threshold)
  {
    if |existing| == 0 {
      return false;
    }
    var i := 0;
    while i < |existing|
      invariant i <= |existing|
      invariant forall k :: 0 <= k < i ==> !(sim(e, existing[k]) > threshold)
    {
      if sim(e, existing[i]) > threshold {
        return true;
      }
      i := i + 1;
    }
    return false;
  }

  /**
   * A written output lists the deduplicated entries above 0.2, each once, in decreasing
   * similarity.
   */
  lemma RankTextFileOutput(input: Ranking.InputFile, lines: seq<Line>, encode: String -> seq<real>,
                           sim: Ranking.Similarity, round: real -> real)
    requires RankTextFile(input, lines, encode, sim, round).Some?
    ensures var t := Dedup(Candidates(lines, QueryEmbedding(input, encode), sim, round));
      multiset(RankTextFile(input, lines, encode, sim, round).value) == multiset(Map(Filter(t, Above), FinalOf))
    ensures DescendingOutput(RankTextFile(input, lines, encode, sim, round).value)
    ensures forall i :: 0 <= i < |RankTextFile(input, lines, encode, sim, round).value| ==>
              RankTextFile(input, lines, encode, sim, round).value[i].similarity > MinSimilarity
  {
    SelectSorted(Dedup(Candidates(lines, QueryEmbedding(input, encode), sim, round)));
  }
}
