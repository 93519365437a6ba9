/**
 * `step4_ranking.py`: ranks the section embeddings of a collection against the query
 * "persona. job" and keeps up to ten sections, skipping any section whose embedding is
 * too similar to one already kept.
 */
module Ranking {
  import opened Optional
  import opened Text
  import opened Seqs
  import StableSort

  /** The cosine similarity of two embeddings (computed by scikit-learn). */
  type Similarity = (seq<real>, seq<real>) -> real

  /** `challenge1b_input.json`: `persona` and `job`, either of which may be missing. */
  datatype InputFile = InputFile(persona: Option<String>, job: Option<String>)

  /** A line of a section-embedding file: unparseable, or an object whose keys may be missing. */
  datatype Line =
    | Unparseable
    | Record(doc: Option<String>, sectionTitle: Option<String>, content: Option<String>, embedding: Option<seq<real>>)

  /** A section with its embedding and its similarity to the query. */
  datatype Scored = Scored(doc: Option<String>, sectionTitle: Option<String>, content: Option<String>,
                           embedding: seq<real>, similarity: real)

  /** An output entry: the section without its embedding. */
  datatype Ranked = Ranked(doc: Option<String>, sectionTitle: Option<String>, content: Option<String>, similarity: real)

  const Threshold: real := 0.9
  const Limit: nat := 10

  /** `get_persona_job`: a missing input file gives two empty strings. */
  function PersonaJob(input: Option<InputFile>): (String, String) {
    match input
    case None => ([], [])
    case Some(f) => (f.persona.GetOr([]), f.job.GetOr([]))
  }

  /** The query text `f"{persona}. {job}"`. */
  function Query(persona: String, job: String): (q: String)
    ensures |q| == |persona| + 2 + |job|
    ensures StartsWith(q, persona) && EndsWith(q, job)
    ensures q[|persona|..|persona| + 2] == ". "
  {
    persona + ". " + job
  }

  /** `is_redundant`: some kept embedding is more than `threshold` similar to the new one. */
  predicate Redundant(e: seq<real>, seen: seq<seq<real>>, sim: Similarity, threshold: real) {
    exists k :: 0 <= k < |seen| && sim(e, seen[k]) > threshold
  }

  /** A line that parses and has an embedding. */
  predicate Usable(l: Line) {
    l.Record? && l.embedding.Some?
  }

  function ScoreOf(l: Line, queryEmb: seq<real>, sim: Similarity): Scored
    requires Usable(l)
  {
    Scored(l.doc, l.sectionTitle, l.content, l.embedding.value, sim(queryEmb, l.embedding.value))
  }

  /** The lines read from a file: those that fail to parse or lack an embedding are skipped. */
  function Score(lines: seq<Line>, queryEmb: seq<real>, sim: Similarity): (r: seq<Scored>)
    ensures |r| <= |lines|
  {
    if |lines| == 0 then []
    else
      var l := lines[0];
      (if Usable(l) then [ScoreOf(l, queryEmb, sim)] else []) + Score(lines[1..], queryEmb, sim)
  }

  /** The scored sections are exactly the usable lines, in file order. */
  lemma {:induction false} ScoreIsUsableLines(lines: seq<Line>, queryEmb: seq<real>, sim: Similarity)
    ensures var usable := Filter(lines, Usable);
      && |Score(lines, queryEmb, sim)| == |usable|
      && forall i :: 0 <= i < |usable| ==> Score(lines, queryEmb, sim)[i] == ScoreOf(usable[i], queryEmb, sim)
  {
    if |lines| > 0 {
      ScoreIsUsableLines(lines[1..], queryEmb, sim);
      var first := if Usable(lines[0]) then [lines[0]] else [];
      assert Filter(lines, Usable) == first + Filter(lines[1..], Usable);
    }
  }

  /** `reverse=True` on the similarity is an ascending sort on its negation. */
  function NegSimilarity(s: Scored): real {
    -s.similarity
  }

  /** The sections in decreasing similarity; equal similarities keep their file order. */
  function ByRelevance(xs: seq<Scored>): (r: seq<Scored>)
    ensures multiset(r) == multiset(xs)
    ensures forall i, j :: 0 <= i < j < |r| ==> r[i].similarity >= r[j].similarity
  {
    var r := StableSort.SortBy(xs, NegSimilarity);
    assert forall i, j :: 0 <= i < j < |r| ==> NegSimilarity(r[i]) <= NegSimilarity(r[j]);
    r
  }

  /** The section at `j` is redundant with a section picked before it. */
  predicate RedundantWithEarlier(xs: seq<Scored>, picks: seq<nat>, j: nat, sim: Similarity)
    requires j < |xs|
    requires forall a :: 0 <= a < |picks| ==> picks[a] < |xs|
  {
    exists a :: 0 <= a < |picks| && picks[a] < j && sim(xs[j].embedding, xs[picks[a]].embedding) > Threshold
  }

  /**
   * What the selection loop keeps, as positions in `xs`: at most ten, in order; none is
   * redundant with one kept before it; and every position not kept that the loop reached
   * (all of them when fewer than ten were kept, else those before the tenth) is redundant
   * with one kept before it.
   */
  predicate GreedySelection(xs: seq<Scored>, picks: seq<nat>, sim: Similarity) {
    && |picks| <= Limit
    && (forall a :: 0 <= a < |picks| ==> picks[a] < |xs|)
    && (forall a, b :: 0 <= a < b < |picks| ==> picks[a] < picks[b])
    && (forall a, b :: 0 <= a < b < |picks| ==> !(sim(xs[picks[b]].embedding, xs[picks[a]].embedding) > Threshold))
    && (forall j :: 0 <= j < |xs| && j !in picks && (|picks| < Limit || j < picks[|picks| - 1]) ==>
          RedundantWithEarlier(xs, picks, j, sim))
  }

  function Unembedded(s: Scored): Ranked {
    Ranked(s.doc, s.sectionTitle, s.content, s.similarity)
  }

  /** The loop's state after scanning `xs[..i]`: the selection so far is greedy on that prefix. */
  predicate Scanned(xs: seq<Scored>, i: nat, picks: seq<nat>, sim: Similarity) {
    && i <= |xs|
    && |picks| <= Limit
    && (forall a :: 0 <= a < |picks| ==> picks[a] < i)
    && (forall a, b :: 0 <= a < b < |picks| ==> picks[a] < picks[b])
    && (forall a, b :: 0 <= a < b < |picks| ==> !(sim(xs[picks[b]].embedding, xs[picks[a]].embedding) > Threshold))
    && (forall j :: 0 <= j < i && j !in picks ==> RedundantWithEarlier(xs, picks, j, sim))
    && (|picks| == Limit ==> picks[|picks| - 1] == i - 1)
  }

  lemma ScanPick(xs: seq<Scored>, i: nat, picks: seq<nat>, sim: Similarity)
    requires Scanned(xs, i, picks, sim) && i < |xs| && |picks| < Limit
    requires forall a :: 0 <= a < |picks| ==> !(sim(xs[i].embedding, xs[picks[a]].embedding) > Threshold)
    ensures Scanned(xs, i + 1, picks + [i], sim)
  {
    var picks' := picks + [i];
    forall j | 0 <= j < i + 1 && j !in picks'
      ensures RedundantWithEarlier(xs, picks', j, sim)
    {
      RedundancyPersists(xs, picks, i, j, sim);
    }
  }

  lemma ScanSkip(xs: seq<Scored>, i: nat, picks: seq<nat>, sim: Similarity, k: nat)
    requires Scanned(xs, i, picks, sim) && i < |xs| && |picks| < Limit
    requires k < |picks| && sim(xs[i].embedding, xs[picks[k]].embedding) > Threshold
    ensures Scanned(xs, i + 1, picks, sim)
  {
    assert RedundantWithEarlier(xs, picks, i, sim);
  }

  /** The embeddings at the given positions (the `seen` list). */
  function EmbeddingsAt(xs: seq<Scored>, picks: seq<nat>): (r: seq<seq<real>>)
    requires forall a :: 0 <= a < |picks| ==> picks[a] < |xs|
    ensures |r| == |picks| && forall a :: 0 <= a < |picks| ==> r[a] == xs[picks[a]].embedding
  {
    seq(|picks|, a requires 0 <= a < |picks| => xs[picks[a]].embedding)
  }

  /** The output entries at the given positions (the `top_sections` list). */
  function RankedAt(xs: seq<Scored>, picks: seq<nat>): (r: seq<Ranked>)
    requires forall a :: 0 <= a < |picks| ==> picks[a] < |xs|
    ensures |r| == |picks| && forall a :: 0 <= a < |picks| ==> r[a] == Unembedded(xs[picks[a]])
  {
    seq(|picks|, a requires 0 <= a < |picks| => Unembedded(xs[picks[a]]))
  }

  lemma AtAppend(xs: seq<Scored>, picks: seq<nat>, i: nat)
    requires i < |xs| && forall a :: 0 <= a < |picks| ==> picks[a] < |xs|
    ensures EmbeddingsAt(xs, picks + [i]) == EmbeddingsAt(xs, picks) + [xs[i].embedding]
    ensures RankedAt(xs, picks + [i]) == RankedAt(xs, picks) + [Unembedded(xs[i])]
  {
  }

  /** The selection loop over the sorted sections, with its `break` at ten. */
  method SelectTop(xs: seq<Scored>, sim: Similarity) returns (top: seq<Ranked>, picks: seq<nat>)
    ensures GreedySelection(xs, picks, sim)
    ensures top == RankedAt(xs, picks)
  {
    top, picks := [], [];
    var seen: seq<seq<real>> := [];
    var i := 0;
    while i < |xs| && |picks| < Limit
      invariant Scanned(xs, i, picks, sim)
      invariant seen == EmbeddingsAt(xs, picks)
      invariant top == RankedAt(xs, picks)
    {
      if !Redundant(xs[i].embedding, seen, sim, Threshold) {
        ScanPick(xs, i, picks, sim);
        AtAppend(xs, picks, i);
        seen := seen + [xs[i].embedding];
        top := top + [Unembedded(xs[i])];
        picks := picks + [i];
      } else {
        var k :| 0 <= k < |seen| && sim(xs[i].embedding, seen[k]) > Threshold;
        ScanSkip(xs, i, picks, sim, k);
      }
      i := i + 1;
    }
    ScanDone(xs, i, picks, sim);
  }

  lemma ScanDone(xs: seq<Scored>, i: nat, picks: seq<nat>, sim: Similarity)
    requires Scanned(xs, i, picks, sim) && (i == |xs| || |picks| == Limit)
    ensures GreedySelection(xs, picks, sim)
  {
  }

  /** A later pick does not undo an earlier redundancy. */
  lemma RedundancyPersists(xs: seq<Scored>, picks: seq<nat>, i: nat, j: nat, sim: Similarity)
    requires i < |xs| && j < |xs|
    requires forall a :: 0 <= a < |picks| ==> picks[a] < |xs|
    requires RedundantWithEarlier(xs, picks, j, sim)
    ensures RedundantWithEarlier(xs, picks + [i], j, sim)
  {
    var a :| 0 <= a < |picks| && picks[a] < j && sim(xs[j].embedding, xs[picks[a]].embedding) > Threshold;
    assert (picks + [i])[a] == picks[a];
  }

  /**
   * One collection: `None` when both persona and job are empty (the file is skipped),
   * otherwise the kept sections.
   */
  method RankCollection(input: Option<InputFile>, lines: seq<Line>, encode: String -> seq<real>, sim: Similarity)
    returns (r: Option<seq<Ranked>>, ranked: seq<Scored>, picks: seq<nat>)
    ensures var (persona, job) := PersonaJob(input);
      (r.None? <==> persona == [] && job == [])
    ensures r.Some? ==> var (persona, job) := PersonaJob(input);
      && ranked == ByRelevance(Score(lines, encode(Query(persona, job)), sim))
      && GreedySelection(ranked, picks, sim)
      && r.value == RankedAt(ranked, picks)
  {
    var (persona, job) := PersonaJob(input);
    if persona == [] && job == [] {
      return None, [], [];
    }
    var queryEmb := encode(Query(persona, job));
    ranked := ByRelevance(Score(lines, queryEmb, sim));
    var top;
    top, picks := SelectTop(ranked, sim);
    r := Some(top);
  }

  /** Kept sections come out in decreasing similarity. */
  lemma SelectionOrdered(xs: seq<Scored>, picks: seq<nat>, sim: Similarity)
    requires GreedySelection(xs, picks, sim)
    requires forall i, j :: 0 <= i < j < |xs| ==> xs[i].similarity >= xs[j].similarity
    ensures forall a, b :: 0 <= a < b < |picks| ==> xs[picks[a]].similarity >= xs[picks[b]].similarity
  {
  }

  /**
   * With no two sections redundant, nothing is skipped: the selection is the first ten
   * sections, or all of them when there are fewer.
   */
  lemma NoRedundancyTakesPrefix(xs: seq<Scored>, picks: seq<nat>, sim: Similarity)
    requires GreedySelection(xs, picks, sim)
    requires forall i, j :: 0 <= i < |xs| && 0 <= j < |xs| ==> !(sim(xs[i].embedding, xs[j].embedding) > Threshold)
    ensures |picks| == if |xs| < Limit then |xs| else Limit
    ensures forall a :: 0 <= a < |picks| ==> picks[a] == a
  {
    PicksAreIndices(picks, |xs|);
    var bound := if |picks| < Limit then |xs| else picks[|picks| - 1];
    forall j | 0 <= j < bound
      ensures j in picks
    {
      if j !in picks {
        assert false;
      }
    }
    forall a | 0 <= a < |picks|
      ensures picks[a] == a
    {
      if a < |picks| - 1 {
        assert picks[a] < picks[|picks| - 1];
      }
      if a < bound {
        PrefixAt(picks, bound, a);
      }
    }
    if |picks| < Limit {
      if |xs| > 0 {
        assert |xs| - 1 in picks;
        var b :| 0 <= b < |picks| && picks[b] == |xs| - 1;
        assert |picks| >= |xs|;
        assert picks[|picks| - 1] < |xs|;
      } else {
        assert |picks| == 0;
      }
    } else {
      assert picks[|picks| - 1] == |picks| - 1;
    }
  }

  lemma PicksAreIndices(picks: seq<nat>, n: nat)
    requires forall a :: 0 <= a < |picks| ==> picks[a] < n
    requires forall a, b :: 0 <= a < b < |picks| ==> picks[a] < picks[b]
    ensures forall a :: 0 <= a < |picks| ==> a <= picks[a]
  {
    forall a | 0 <= a < |picks|
      ensures a <= picks[a]
    {
      Increasing(picks, a);
    }
  }

  lemma {:induction false} Increasing(picks: seq<nat>, a: nat)
    requires a < |picks|
    requires forall x, y :: 0 <= x < y < |picks| ==> picks[x] < picks[y]
    ensures a <= picks[a]
  {
    if a > 0 {
      Increasing(picks, a - 1);
    }
  }

  /** Increasing positions that include every index below `bound` start with `0, 1, ...`. */
  lemma {:induction false} PrefixAt(picks: seq<nat>, bound: nat, a: nat)
    requires forall x, y :: 0 <= x < y < |picks| ==> picks[x] < picks[y]
    requires forall j :: 0 <= j < bound ==> j in picks
    requires a < |picks| && a < bound
    ensures picks[a] == a
  {
    if a > 0 {
      PrefixAt(picks, bound, a - 1);
    }
    assert a in picks;
    var b :| 0 <= b < |picks| && picks[b] == a;
  }
}
