/**
 * Answer assembly (src/core/rag/Answer.ts): the relevance filter over the
 * ranked chunks, the labelled context block handed to the language model and
 * the citation list returned to the caller.
 */
module Answer {
  import opened Types
  import opened Text
  import Config

  /** Where a piece of grounding came from. */
  datatype Citation = Citation(source: string, chunkIndex: nat)

  /** `AnswerResult`: either grounded context with citations, or a reason why there is none. */
  datatype AnswerResult =
    | Grounded(content: string, citations: seq<Citation>)
    | NotGrounded(message: string)

  const NoChunksMessage: string := "No chunks found."
  const NotAvailableMessage: string := "This information is not available in the provided documentation."

  /** Blocks of the context are separated by one blank line. */
  const BlockSeparator: string := "\n\n"

  /** The relevance policy: the threshold is inclusive. */
  predicate IsRelevant(r: Retrieved)
  {
    r.score >= Config.SimThreshold
  }

  /** `topChunks.filter(r => r.score >= simThreshold)`, in input order. */
  function Relevant(rs: seq<Retrieved>): (out: seq<Retrieved>)
    ensures |out| <= |rs|
    ensures forall x :: x in out ==> x in rs && IsRelevant(x)
    ensures forall x :: x in rs && IsRelevant(x) ==> x in out
  {
    if rs == [] then []
    else
      var n := |rs| - 1;
      assert rs == rs[..n] + [rs[n]];
      Relevant(rs[..n]) + (if IsRelevant(rs[n]) then [rs[n]] else [])
  }

  /**
   * The positions of the relevant chunks, in increasing order: an independent
   * description of which inputs survive the filter.
   */
  function RelevantPositions(rs: seq<Retrieved>): (pos: seq<nat>)
    ensures |pos| == |Relevant(rs)|
    ensures forall k :: 0 <= k < |pos| ==> pos[k] < |rs| && IsRelevant(rs[pos[k]])
    ensures forall k, l :: 0 <= k < l < |pos| ==> pos[k] < pos[l]
  {
    if rs == [] then []
    else
      var n := |rs| - 1;
      RelevantPositions(rs[..n]) + (if IsRelevant(rs[n]) then [n] else [])
  }

  /** Exactly the relevant inputs have their position listed. */
  lemma RelevantPositionsExact(rs: seq<Retrieved>)
    ensures forall i :: 0 <= i < |rs| ==> (i in RelevantPositions(rs) <==> IsRelevant(rs[i]))
  {
    forall i | 0 <= i < |rs|
      ensures i in RelevantPositions(rs) <==> IsRelevant(rs[i])
    {
      RelevantPositionAt(rs, i);
    }
  }

  lemma {:induction false} RelevantPositionAt(rs: seq<Retrieved>, i: nat)
    requires i < |rs|
    ensures i in RelevantPositions(rs) <==> IsRelevant(rs[i])
  {
    var n := |rs| - 1;
    var prefix := RelevantPositions(rs[..n]);
    var last: seq<nat> := if IsRelevant(rs[n]) then [n] else [];
    assert RelevantPositions(rs) == prefix + last;
    if i < n {
      RelevantPositionAt(rs[..n], i);
      assert rs[..n][i] == rs[i];
      assert i !in last;
    } else {
      assert i !in prefix by {
        assert forall k :: 0 <= k < |prefix| ==> prefix[k] < n;
      }
    }
  }

  /**
   * The filter keeps input order: survivor k is the input at the k-th
   * relevant position, and there is one survivor per relevant input.
   */
  lemma {:induction false} RelevantKeepsOrder(rs: seq<Retrieved>)
    ensures |Relevant(rs)| == |RelevantPositions(rs)|
    ensures forall k :: 0 <= k < |Relevant(rs)| ==>
      RelevantPositions(rs)[k] < |rs| && Relevant(rs)[k] == rs[RelevantPositions(rs)[k]]
  {
    if rs != [] {
      var n := |rs| - 1;
      RelevantKeepsOrder(rs[..n]);
    }
  }

  /** The label of the k-th block (k counted from 1). */
  function BlockLabel(k: nat, score: real, fmt: Formatter): string
  {
    "[Chunk " + NatToString(k) + " \U{2013} score: " + fmt(score) + "]\n"
  }

  /** One block of the context: its label, then the chunk text verbatim. */
  function Block(k: nat, r: Retrieved, fmt: Formatter): string
  {
    BlockLabel(k, r.score, fmt) + r.chunk.text
  }

  /** `relevantChunks.map((r, index) => ...)`: labels are 1-based. */
  function Blocks(rs: seq<Retrieved>, fmt: Formatter): seq<string>
  {
    seq(|rs|, i requires 0 <= i < |rs| => Block(i + 1, rs[i], fmt))
  }

  /** `relevantChunks.map(r => ({source, chunkIndex}))`. */
  function Citations(rs: seq<Retrieved>): seq<Citation>
  {
    seq(|rs|, i requires 0 <= i < |rs| => Citation(rs[i].chunk.source, rs[i].chunk.chunkIndex))
  }

  /** `buildAnswer(topChunks)`. */
  function BuildAnswer(topChunks: seq<Retrieved>, fmt: Formatter): (r: AnswerResult)
    ensures |topChunks| == 0 ==> r == NotGrounded(NoChunksMessage)
    ensures r.Grounded? <==> exists i :: 0 <= i < |topChunks| && IsRelevant(topChunks[i])
    ensures r.NotGrounded? && |topChunks| > 0 ==> r.message == NotAvailableMessage
    ensures r.NotGrounded? ==> (r.message == NoChunksMessage <==> |topChunks| == 0)
    ensures r.Grounded? ==> |r.citations| == |Relevant(topChunks)| >= 1
  {
    if |topChunks| == 0 then NotGrounded(NoChunksMessage)
    else
      var relevant := Relevant(topChunks);
      if |relevant| == 0 then NotGrounded(NotAvailableMessage)
      else
        assert relevant[0] in topChunks;
        Grounded(Join(Blocks(relevant, fmt), BlockSeparator), Citations(relevant))
  }

  /**
   * On success the citations follow the survivors in ranked order: citation k
   * names the source and chunk index of the k-th relevant input.
   */
  lemma GroundedCitations(topChunks: seq<Retrieved>, fmt: Formatter)
    requires BuildAnswer(topChunks, fmt).Grounded?
    ensures var pos := RelevantPositions(topChunks);
      var cs := BuildAnswer(topChunks, fmt).citations;
      |cs| == |pos| &&
      forall k :: 0 <= k < |cs| ==>
        pos[k] < |topChunks| &&
        cs[k] == Citation(topChunks[pos[k]].chunk.source, topChunks[pos[k]].chunk.chunkIndex)
  {
    RelevantKeepsOrder(topChunks);
  }

  /** A grounded answer is made of the joined blocks and the citations of the survivors. */
  lemma GroundedParts(topChunks: seq<Retrieved>, fmt: Formatter)
    requires BuildAnswer(topChunks, fmt).Grounded?
    ensures BuildAnswer(topChunks, fmt).content == Join(Blocks(Relevant(topChunks), fmt), BlockSeparator)
    ensures BuildAnswer(topChunks, fmt).citations == Citations(Relevant(topChunks))
  {
  }

  /**
   * On success the context holds one block per survivor, in ranked order:
   * block k starts at the k-th offset, carries the 1-based label k + 1 with
   * the survivor's formatted score, then the survivor's text verbatim; a blank
   * line separates it from the next block.
   */
  lemma GroundedContentLayout(topChunks: seq<Retrieved>, fmt: Formatter, k: nat)
    requires BuildAnswer(topChunks, fmt).Grounded?
    requires k < |BuildAnswer(topChunks, fmt).citations|
    ensures k < |RelevantPositions(topChunks)| && RelevantPositions(topChunks)[k] < |topChunks|
    ensures k < |Relevant(topChunks)| && Relevant(topChunks)[k] == topChunks[RelevantPositions(topChunks)[k]]
    ensures |BuildAnswer(topChunks, fmt).content| ==
      SumLengths(Blocks(Relevant(topChunks), fmt)) + (|Relevant(topChunks)| - 1) * |BlockSeparator|
    ensures var content := BuildAnswer(topChunks, fmt).content;
      var start := PartOffset(Blocks(Relevant(topChunks), fmt), BlockSeparator, k);
      var block := Block(k + 1, Relevant(topChunks)[k], fmt);
      OccursAt(content, start, block) &&
      (k + 1 < |Relevant(topChunks)| ==> OccursAt(content, start + |block|, BlockSeparator))
  {
    GroundedParts(topChunks, fmt);
    RelevantKeepsOrder(topChunks);
    BlocksLayout(Relevant(topChunks), fmt, k);
  }

  /** Block k of a joined context sits at its offset and is followed by a blank line. */
  lemma BlocksLayout(rel: seq<Retrieved>, fmt: Formatter, k: nat)
    requires k < |rel|
    ensures |Join(Blocks(rel, fmt), BlockSeparator)| == SumLengths(Blocks(rel, fmt)) + (|rel| - 1) * |BlockSeparator|
    ensures var content := Join(Blocks(rel, fmt), BlockSeparator);
      var start := PartOffset(Blocks(rel, fmt), BlockSeparator, k);
      var block := Block(k + 1, rel[k], fmt);
      OccursAt(content, start, block) &&
      (k + 1 < |rel| ==> OccursAt(content, start + |block|, BlockSeparator))
  {
    JoinLayout(Blocks(rel, fmt), BlockSeparator, k);
  }

  /** A chunk scoring exactly the threshold is kept: the boundary is inclusive. */
  lemma ThresholdIsInclusive(x: Retrieved, fmt: Formatter)
    requires x.score == Config.SimThreshold
    ensures BuildAnswer([x], fmt) == Grounded(Join([Block(1, x, fmt)], BlockSeparator),
                                             [Citation(x.chunk.source, x.chunk.chunkIndex)])
  {
    assert Relevant([x]) == [x] by { assert [x][1..] == []; }
  }

  /** A chunk just below the threshold is not enough grounding on its own. */
  lemma BelowThresholdIsNotGrounded(x: Retrieved, fmt: Formatter)
    requires x.score < Config.SimThreshold
    ensures BuildAnswer([x], fmt) == NotGrounded(NotAvailableMessage)
  {
  }
}
