/**
 * Retrieval (src/core/rag/Retrieval.ts): scores every stored chunk against
 * the query, sorts the scored list by descending score and keeps the first
 * topK entries.
 */
module Retrieval {
  import opened Types
  import opened StableSort

  /** The scored list, in corpus order: one entry per stored chunk. */
  function ScoreAll(chunks: seq<Chunk>, query: Vector, score: Scorer): seq<Retrieved>
  {
    seq(|chunks|, i requires 0 <= i < |chunks| => Retrieved(chunks[i], score(query, chunks[i].embedding)))
  }

  /** What `search` returns: the stable descending sort of the scored list, cut to topK. */
  function Ranked(chunks: seq<Chunk>, query: Vector, topK: nat, score: Scorer): seq<Retrieved>
  {
    SortByScore(ScoreAll(chunks, query, score))[..Min(topK, |chunks|)]
  }

  /**
   * The result holds min(topK, |chunks|) entries by non-increasing score,
   * each a stored chunk with its own score, none invented or duplicated.
   */
  lemma RankedSpec(chunks: seq<Chunk>, query: Vector, topK: nat, score: Scorer)
    ensures var r := Ranked(chunks, query, topK, score);
      |r| == Min(topK, |chunks|) &&
      NonIncreasing(r) &&
      multiset(r) <= multiset(ScoreAll(chunks, query, score)) &&
      forall x :: x in r ==> x.chunk in chunks && x.score == score(query, x.chunk.embedding)
  {
    var all := ScoreAll(chunks, query, score);
    var sorted := SortByScore(all);
    var r := Ranked(chunks, query, topK, score);
    SortByScoreIsSorted(all);
    SortByScorePermutes(all);
    SortedSplit(sorted, |r|);
    assert NonIncreasing(r) by {
      forall i, j | 0 <= i < j < |r| ensures r[i].score >= r[j].score {
        assert r[i] == sorted[i] && r[j] == sorted[j];
      }
    }
    forall x | x in r
      ensures x.chunk in chunks && x.score == score(query, x.chunk.embedding)
    {
      assert x in multiset(all);
      var i :| 0 <= i < |all| && all[i] == x;
    }
  }

  /**
   * Top-K: the scored list splits into the result and the entries left out,
   * and no entry left out scores above any entry returned.
   */
  lemma RankedIsTopK(chunks: seq<Chunk>, query: Vector, topK: nat, score: Scorer)
    ensures var r := Ranked(chunks, query, topK, score);
      var dropped := SortByScore(ScoreAll(chunks, query, score))[|r|..];
      multiset(r) + multiset(dropped) == multiset(ScoreAll(chunks, query, score)) &&
      forall x, y :: x in dropped && y in r ==> x.score <= y.score
  {
    var all := ScoreAll(chunks, query, score);
    SortByScoreIsSorted(all);
    SortByScorePermutes(all);
    SortedSplit(SortByScore(all), Min(topK, |chunks|));
  }

  /** A sorted sequence cut at m: the two sides partition it, and the back never outscores the front. */
  lemma SortedSplit(s: seq<Retrieved>, m: nat)
    requires NonIncreasing(s) && m <= |s|
    ensures multiset(s[..m]) + multiset(s[m..]) == multiset(s)
    ensures forall x, y :: x in s[m..] && y in s[..m] ==> x.score <= y.score
  {
    assert s == s[..m] + s[m..];
    forall x, y | x in s[m..] && y in s[..m]
      ensures x.score <= y.score
    {
      var i :| 0 <= i < |s| - m && s[m..][i] == x;
      var j :| 0 <= j < m && s[..m][j] == y;
      assert s[j] == y && s[m + i] == x;
    }
  }

  /**
   * Ties keep corpus order: the result's entries of any one score are the
   * first ones of that score in corpus order.
   */
  lemma RankedIsStable(chunks: seq<Chunk>, query: Vector, topK: nat, score: Scorer, v: real)
    ensures var kept := WithScore(Ranked(chunks, query, topK, score), v);
      var all := WithScore(ScoreAll(chunks, query, score), v);
      |kept| <= |all| && kept == all[..|kept|]
  {
    var all := ScoreAll(chunks, query, score);
    var sorted := SortByScore(all);
    var r := Ranked(chunks, query, topK, score);
    assert sorted == r + sorted[|r|..];
    WithScoreAppend(r, sorted[|r|..], v);
    SortByScoreIsStable(all, v);
  }

  /** A corpus already in ranked order is returned as its first topK entries. */
  lemma RankedOfSortedCorpus(chunks: seq<Chunk>, query: Vector, topK: nat, score: Scorer)
    requires NonIncreasing(ScoreAll(chunks, query, score))
    ensures Ranked(chunks, query, topK, score) == ScoreAll(chunks, query, score)[..Min(topK, |chunks|)]
  {
    SortedInputUnchanged(ScoreAll(chunks, query, score));
  }

  /** `class Retrieval`: holds the loaded chunks and answers searches over them. */
  class Retrieval {
    /** The corpus, loaded once and never reassigned. */
    const chunks: seq<Chunk>

    constructor (chunks: seq<Chunk>)
      ensures this.chunks == chunks
    {
      this.chunks := chunks;
    }

    /** `getChunks()`: the stored corpus itself. */
    method GetChunks() returns (r: seq<Chunk>)
      ensures r == chunks
    {
      r := chunks;
    }

    /**
     * `search(queryVector, topK)`: scores into a fresh array, sorts that
     * array in place and returns its first topK entries. The corpus is not
     * in the method's frame, so it cannot change.
     */
    method Search(queryVector: Vector, topK: nat, score: Scorer) returns (r: seq<Retrieved>)
      ensures r == Ranked(chunks, queryVector, topK, score)
      ensures |r| == Min(topK, |chunks|)
      ensures chunks == [] ==> r == []
      ensures NonIncreasing(r)
      ensures forall x :: x in r ==> x.chunk in chunks && x.score == score(queryVector, x.chunk.embedding)
    {
      var cs := chunks;
      var scored := new Retrieved[|cs|](i requires 0 <= i < |cs| => Retrieved(cs[i], score(queryVector, cs[i].embedding)));
      assert scored[..] == ScoreAll(cs, queryVector, score);
      SortInPlace(scored);
      r := scored[..Min(topK, scored.Length)];
      RankedSpec(cs, queryVector, topK, score);
    }
  }

  /** A search leaves the stored corpus exactly as it was. */
  method SearchKeepsCorpus(retrieval: Retrieval, queryVector: Vector, topK: nat, score: Scorer)
    returns (before: seq<Chunk>, after: seq<Chunk>)
    ensures before == after == retrieval.chunks
  {
    before := retrieval.GetChunks();
    var _ := retrieval.Search(queryVector, topK, score);
    after := retrieval.GetChunks();
  }
}
