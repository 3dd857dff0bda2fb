/**
 * The word-window chunker of the offline index builder (`chunkText` in
 * scripts/build-index.ts): the document text is split on runs of
 * whitespace, and every `size` consecutive words, joined by single spaces,
 * become one chunk.
 */
module BuildIndex {
  import opened Types
  import opened Text

  /** Words per chunk used when the index is built. */
  const ChunkSize: nat := 300

  /** Words of a chunk are joined with one space. */
  const WordSeparator: string := " "

  /** The characters matched by `\s` in a JavaScript regular expression. */
  const SpaceChars: set<char> := {
    '\t', '\n', '\U{000B}', '\U{000C}', '\r', ' ', '\U{00A0}', '\U{1680}',
    '\U{2000}', '\U{2001}', '\U{2002}', '\U{2003}', '\U{2004}', '\U{2005}',
    '\U{2006}', '\U{2007}', '\U{2008}', '\U{2009}', '\U{200A}',
    '\U{2028}', '\U{2029}', '\U{202F}', '\U{205F}', '\U{3000}', '\U{FEFF}'
  }

  predicate IsSpace(c: char)
  {
    c in SpaceChars
  }

  predicate NoSpace(w: string)
  {
    forall i :: 0 <= i < |w| ==> !IsSpace(w[i])
  }

  /** The length of the run of non-whitespace characters that starts s. */
  function WordEnd(s: string): (n: nat)
    ensures n <= |s| && NoSpace(s[..n])
    ensures n < |s| ==> IsSpace(s[n])
  {
    if s == [] || IsSpace(s[0]) then 0
    else
      var n := 1 + WordEnd(s[1..]);
      assert s[..n] == [s[0]] + s[1..][..n - 1];
      n
  }

  /** The length of the run of whitespace characters that starts s. */
  function SpaceEnd(s: string): (n: nat)
    ensures n <= |s|
    ensures forall i :: 0 <= i < n ==> IsSpace(s[i])
    ensures n < |s| ==> !IsSpace(s[n])
  {
    if s == [] || !IsSpace(s[0]) then 0 else 1 + SpaceEnd(s[1..])
  }

  /** `text.split(/\s+/)`: the pieces between maximal whitespace runs. */
  function Words(s: string): (ws: seq<string>)
    ensures |ws| >= 1
    decreases |s|
  {
    var n := WordEnd(s);
    if n == |s| then [s]
    else
      var rest := s[n..];
      var m := SpaceEnd(rest);
      [s[..n]] + Words(rest[m..])
  }

  /** A sequence of words the split can produce: no whitespace, no empty word inside. */
  predicate WellFormedWords(ws: seq<string>)
  {
    |ws| >= 1 &&
    (forall k :: 0 <= k < |ws| ==> NoSpace(ws[k])) &&
    (forall k :: 0 < k < |ws| - 1 ==> ws[k] != "")
  }

  /**
   * No word of the split holds whitespace, and only the first and the last
   * can be empty (from leading or trailing whitespace); the first is not
   * empty when the text starts with a non-space.
   */
  lemma {:induction false} WordsWellFormed(s: string)
    ensures WellFormedWords(Words(s))
    ensures |s| > 0 && !IsSpace(s[0]) ==> Words(s)[0] != ""
    decreases |s|
  {
    var n := WordEnd(s);
    if n < |s| {
      var rest := s[n..];
      var m := SpaceEnd(rest);
      assert m > 0 by {
        assert rest[0] == s[n];
      }
      var tail := Words(rest[m..]);
      WordsWellFormed(rest[m..]);
      var ws := Words(s);
      assert ws == [s[..n]] + tail;
      forall k | 0 < k < |ws| - 1
        ensures ws[k] != ""
      {
        assert ws[k] == tail[k - 1];
        if k == 1 {
          assert |rest[m..]| == 0 ==> |tail| == 1;
        }
      }
      assert s[..n] == ws[0];
    }
  }

  /** A word, one space, then text that does not start with whitespace splits into that word first. */
  lemma WordsCons(w: string, j: string)
    requires NoSpace(w) && (j == [] || !IsSpace(j[0]))
    ensures Words(w + WordSeparator + j) == [w] + Words(j)
  {
    var s := w + WordSeparator + j;
    ConsCuts(w, j);
    WordsStep(s);
  }

  /** Where the split cuts a word, one space and the rest. */
  lemma ConsCuts(w: string, j: string)
    requires NoSpace(w) && (j == [] || !IsSpace(j[0]))
    ensures var s := w + WordSeparator + j;
      WordEnd(s) == |w| && s[..|w|] == w &&
      SpaceEnd(s[|w|..]) == 1 && s[|w|..][1..] == j
  {
    var s := w + WordSeparator + j;
    assert s[..|w|] == w && s[|w|] == ' ';
    WordEndAt(s, |w|);
    assert s[|w|..] == WordSeparator + j;
    SpaceEndAt(s[|w|..], 1);
  }

  /** One step of the split: the first word, then the split of what follows the next whitespace run. */
  lemma WordsStep(s: string)
    requires WordEnd(s) < |s|
    ensures Words(s) == [s[..WordEnd(s)]] + Words(s[WordEnd(s)..][SpaceEnd(s[WordEnd(s)..])..])
  {
  }

  /** Joining words with single spaces and splitting again gives the same words. */
  lemma {:induction false} WordsOfJoin(ws: seq<string>)
    requires WellFormedWords(ws)
    ensures Words(Join(ws, WordSeparator)) == ws
  {
    if |ws| == 1 {
      WordsOfWord(ws[0]);
    } else {
      var tail := ws[1..];
      JoinCons(ws, WordSeparator);
      JoinedTailStart(ws);
      TailWellFormed(ws);
      WordsCons(ws[0], Join(tail, WordSeparator));
      WordsOfJoin(tail);
      assert ws == [ws[0]] + tail;
    }
  }

  /** A text without whitespace is a single word. */
  lemma WordsOfWord(w: string)
    requires NoSpace(w)
    ensures Words(w) == [w]
  {
    assert w[..|w|] == w;
    WordEndAt(w, |w|);
  }

  /** After the first word and its space, the join goes on with a non-space (or ends). */
  lemma JoinedTailStart(ws: seq<string>)
    requires WellFormedWords(ws) && |ws| >= 2
    ensures Join(ws[1..], WordSeparator) == [] || !IsSpace(Join(ws[1..], WordSeparator)[0])
  {
    var tail := ws[1..];
    var j := Join(tail, WordSeparator);
    JoinHead(tail, WordSeparator);
    if j != [] {
      if |tail| == 1 {
        assert j == ws[1];
      } else {
        assert 0 < 1 < |ws| - 1;
      }
      assert ws[1] != "";
      assert j[0] == j[0..|ws[1]|][0] == ws[1][0];
    }
  }

  /** Dropping the first word keeps a split result well formed. */
  lemma TailWellFormed(ws: seq<string>)
    requires WellFormedWords(ws) && |ws| >= 2
    ensures WellFormedWords(ws[1..])
  {
    forall k | 0 < k < |ws| - 2
      ensures ws[1..][k] != ""
    {
      assert ws[1..][k] == ws[k + 1];
    }
  }

  /** WordEnd is the only cut with a whitespace-free prefix followed by whitespace or the end. */
  lemma {:induction false} WordEndAt(s: string, n: nat)
    requires n <= |s| && NoSpace(s[..n]) && (n < |s| ==> IsSpace(s[n]))
    ensures WordEnd(s) == n
    decreases n
  {
    if n > 0 {
      assert s[0] == s[..n][0];
      assert s[1..][..n - 1] == s[..n][1..];
      WordEndAt(s[1..], n - 1);
    }
  }

  /** SpaceEnd is the only cut with an all-whitespace prefix followed by non-whitespace or the end. */
  lemma SpaceEndAt(s: string, n: nat)
    requires n <= |s| && (forall i :: 0 <= i < n ==> IsSpace(s[i])) && (n < |s| ==> !IsSpace(s[n]))
    ensures SpaceEnd(s) == n
  {
  }

  /**
   * The text with every maximal run of whitespace replaced by one space,
   * read character by character; `afterSpace` says whether the previous
   * character was whitespace.
   */
  function CollapseFrom(s: string, afterSpace: bool): string
  {
    if s == [] then ""
    else if IsSpace(s[0]) then (if afterSpace then "" else WordSeparator) + CollapseFrom(s[1..], true)
    else [s[0]] + CollapseFrom(s[1..], false)
  }

  function Collapse(s: string): string
  {
    CollapseFrom(s, false)
  }

  /**
   * The split covers the whole text: its words joined by single spaces are
   * the text with each whitespace run collapsed to one space, so no
   * character outside whitespace is lost, added or moved.
   */
  lemma {:induction false} WordsJoinToCollapse(s: string)
    ensures Join(Words(s), WordSeparator) == Collapse(s)
    decreases |s|
  {
    var n := WordEnd(s);
    if n == |s| {
      CollapseWord(s, []);
      assert s + [] == s;
    } else {
      var rest := s[n..];
      var m := SpaceEnd(rest);
      var w, r, t := s[..n], rest[..m], rest[m..];
      assert rest[0] == s[n];
      assert forall i :: 0 <= i < |r| ==> IsSpace(r[i]);
      assert s == w + r + t;
      CollapseStep(w, r, t);
      WordsStep(s);
      WordsJoinToCollapse(t);
      var ws := Words(s);
      JoinCons(ws, WordSeparator);
      assert ws[0] == w && ws[1..] == Words(t);
    }
  }

  /** A word, a whitespace run and what follows it: the word, one space, then the collapse of the rest. */
  lemma CollapseStep(w: string, r: string, t: string)
    requires NoSpace(w) && |r| >= 1 && (forall i :: 0 <= i < |r| ==> IsSpace(r[i]))
    requires t == [] || !IsSpace(t[0])
    ensures CollapseFrom(w + r + t, false) == w + WordSeparator + CollapseFrom(t, false)
  {
    CollapseSpaces(r, t, false);
    CollapseWord(w, r + t);
    assert w + r + t == w + (r + t);
    ConcatAssoc(w, WordSeparator, CollapseFrom(t, false));
  }

  /** A whitespace-free prefix passes through the collapse unchanged. */
  lemma {:induction false} CollapseWord(w: string, t: string)
    requires NoSpace(w)
    ensures CollapseFrom(w + t, false) == w + CollapseFrom(t, false)
    decreases |w|
  {
    if w != [] {
      assert (w + t)[0] == w[0] && (w + t)[1..] == w[1..] + t;
      assert !IsSpace(w[0]);
      assert CollapseFrom(w + t, false) == [w[0]] + CollapseFrom(w[1..] + t, false);
      CollapseWord(w[1..], t);
      assert [w[0]] + (w[1..] + CollapseFrom(t, false)) == w + CollapseFrom(t, false);
    } else {
      assert w + t == t && w + CollapseFrom(t, false) == CollapseFrom(t, false);
    }
  }

  /** A whitespace run becomes one space, or nothing right after whitespace. */
  lemma {:induction false} CollapseSpaces(r: string, t: string, afterSpace: bool)
    requires |r| >= 1 && (forall i :: 0 <= i < |r| ==> IsSpace(r[i]))
    requires t == [] || !IsSpace(t[0])
    ensures CollapseFrom(r + t, afterSpace) == (if afterSpace then "" else WordSeparator) + CollapseFrom(t, false)
    decreases |r|
  {
    assert (r + t)[0] == r[0] && (r + t)[1..] == r[1..] + t;
    var lead := if afterSpace then "" else WordSeparator;
    assert CollapseFrom(r + t, afterSpace) == lead + CollapseFrom(r[1..] + t, true);
    if |r| == 1 {
      assert r[1..] + t == t;
      assert CollapseFrom(t, true) == CollapseFrom(t, false);
    } else {
      CollapseSpaces(r[1..], t, true);
    }
  }

  /**
   * The split is the only well-formed word list whose single-space join is
   * the collapsed text.
   */
  lemma SplitIsUnique(s: string, ws: seq<string>)
    requires WellFormedWords(ws) && Join(ws, WordSeparator) == Collapse(s)
    ensures ws == Words(s)
  {
    WordsOfJoin(ws);
    WordsWellFormed(s);
    WordsOfJoin(Words(s));
    WordsJoinToCollapse(s);
  }


  /** Consecutive windows of `size` words; only the last may be shorter. */
  function Windows(words: seq<string>, size: nat): seq<seq<string>>
    requires size > 0
    decreases |words|
  {
    if |words| == 0 then []
    else if |words| <= size then [words]
    else [words[..size]] + Windows(words[size..], size)
  }

  /** The windows laid end to end. */
  function Concat(windows: seq<seq<string>>): seq<string>
  {
    if windows == [] then [] else windows[0] + Concat(windows[1..])
  }

  /** No word is lost, duplicated or reordered: the windows concatenate back to the words. */
  lemma {:induction false} WindowsConcat(words: seq<string>, size: nat)
    requires size > 0
    ensures Concat(Windows(words, size)) == words
    decreases |words|
  {
    if |words| > size {
      var ws := Windows(words, size);
      WindowsConcat(words[size..], size);
      assert ws[1..] == Windows(words[size..], size);
      assert words == words[..size] + words[size..];
    } else if |words| > 0 {
      assert Windows(words, size)[1..] == [];
    }
  }

  /** Where window k starts: k windows of `size` words each come before it. */
  function Offset(k: nat, size: nat): nat
  {
    if k == 0 then 0 else Offset(k - 1, size) + size
  }

  lemma {:induction false} OffsetIsProduct(k: nat, size: nat)
    ensures Offset(k, size) == k * size
  {
    if k > 0 {
      OffsetIsProduct(k - 1, size);
      MulStep(size, k - 1);
    }
  }

  /** There are ceil(|words| / size) windows. */
  lemma {:induction false} WindowCount(words: seq<string>, size: nat)
    requires size > 0
    ensures |Windows(words, size)| == (|words| + size - 1) / size
    decreases |words|
  {
    if |words| == 0 {
      DivUnique(size - 1, size, 0, size - 1);
    } else if |words| <= size {
      DivUnique(|words| + size - 1, size, 1, |words| - 1);
    } else {
      WindowCount(words[size..], size);
      DivShift(|words| - 1, size);
    }
  }

  /** Window k is the slice of the words from its offset up to the next one, cut at the end. */
  lemma {:induction false} WindowAt(words: seq<string>, size: nat, k: nat)
    requires size > 0 && k < |Windows(words, size)|
    ensures Offset(k, size) < |words|
    ensures Windows(words, size)[k] == words[Offset(k, size)..Min(Offset(k + 1, size), |words|)]
    decreases k
  {
    assert Offset(k + 1, size) == Offset(k, size) + size;
    if k == 0 {
      assert Offset(0, size) == 0;
      if |words| <= size {
        assert words[0..|words|] == words;
      } else {
        assert words[0..size] == words[..size];
      }
    } else {
      assert |words| > size;
      var rest := words[size..];
      WindowAt(rest, size, k - 1);
      assert Windows(words, size)[k] == Windows(rest, size)[k - 1];
      var lo := Offset(k - 1, size);
      var hi := Min(Offset(k, size), |rest|);
      assert Offset(k, size) == size + lo;
      assert Min(Offset(k + 1, size), |words|) == size + hi;
      DropSlice(words, size, lo, hi);
    }
  }

  /** Every window but the last holds exactly `size` words; the last holds 1 to `size`. */
  lemma {:induction false} WindowSizes(words: seq<string>, size: nat)
    requires size > 0
    ensures var ws := Windows(words, size);
      (forall k :: 0 <= k < |ws| - 1 ==> |ws[k]| == size) &&
      (|ws| > 0 ==> 1 <= |ws[|ws| - 1]| <= size)
    decreases |words|
  {
    if |words| > size {
      WindowSizes(words[size..], size);
      var ws := Windows(words, size);
      assert ws[1..] == Windows(words[size..], size);
    }
  }

  /**
   * The chunks from word i on: the window starting at i (cut at the end of
   * the words) joined with single spaces, then the chunks from i + size.
   */
  function ChunksFrom(words: seq<string>, i: nat, size: nat): seq<string>
    requires size > 0
    decreases |words| - i
  {
    if i >= |words| then []
    else [Join(words[i..Min(i + size, |words|)], WordSeparator)] + ChunksFrom(words, i + size, size)
  }

  /** The chunk texts of the words. */
  function ChunkTexts(words: seq<string>, size: nat): seq<string>
    requires size > 0
  {
    ChunksFrom(words, 0, size)
  }

  /** The chunks from word i on are the windows of the words from i on, joined. */
  lemma {:induction false} ChunksFromAreJoinedWindows(words: seq<string>, i: nat, size: nat)
    requires size > 0 && i <= |words|
    ensures |ChunksFrom(words, i, size)| == |Windows(words[i..], size)|
    ensures forall k :: 0 <= k < |Windows(words[i..], size)| ==>
      ChunksFrom(words, i, size)[k] == Join(Windows(words[i..], size)[k], WordSeparator)
    decreases |words| - i
  {
    if i < |words| {
      var rest := words[i..];
      var hi := Min(i + size, |words|);
      if hi == |words| {
        assert words[i..hi] == rest;
      } else {
        assert words[i..hi] == rest[..size];
        assert rest[size..] == words[hi..];
        ChunksFromAreJoinedWindows(words, hi, size);
      }
    }
  }

  /** Chunk k is window k joined with single spaces. */
  lemma ChunkTextsAreJoinedWindows(words: seq<string>, size: nat)
    requires size > 0
    ensures |ChunkTexts(words, size)| == |Windows(words, size)|
    ensures forall k :: 0 <= k < |Windows(words, size)| ==>
      ChunkTexts(words, size)[k] == Join(Windows(words, size)[k], WordSeparator)
  {
    assert words[0..] == words;
    ChunksFromAreJoinedWindows(words, 0, size);
  }

  /**
   * There are ceil(|words| / size) chunks, and chunk k joins the words from
   * k * size up to (k + 1) * size, cut at the end of the words.
   */
  lemma ChunkAt(words: seq<string>, size: nat, k: nat)
    requires size > 0
    ensures |ChunkTexts(words, size)| == (|words| + size - 1) / size
    ensures k < |ChunkTexts(words, size)| ==>
      k * size < |words| &&
      ChunkTexts(words, size)[k] == Join(words[k * size..Min((k + 1) * size, |words|)], WordSeparator)
  {
    WindowCount(words, size);
    ChunkTextsAreJoinedWindows(words, size);
    if k < |Windows(words, size)| {
      WindowAt(words, size, k);
      OffsetIsProduct(k, size);
      OffsetIsProduct(k + 1, size);
    }
  }

  /** One turn of the loop: the window at i moves from the chunks still to come to those emitted. */
  lemma ChunksFromStep(words: seq<string>, done: seq<string>, i: nat, size: nat)
    requires size > 0 && i < |words|
    ensures done + ChunksFrom(words, i, size) ==
      (done + [Join(words[i..Min(i + size, |words|)], WordSeparator)]) + ChunksFrom(words, i + size, size)
  {
  }

  /**
   * `chunkText(text, size)`: walks the words `size` at a time and appends the
   * joined window to the result. The source loops forever when `size` is not
   * positive, so callers must pass a positive size.
   */
  method ChunkText(text: string, size: nat) returns (chunks: seq<string>)
    requires size > 0
    ensures chunks == ChunkTexts(Words(text), size)
  {
    var words := Words(text);
    chunks := [];
    var i := 0;
    while i < |words|
      invariant chunks + ChunksFrom(words, i, size) == ChunksFrom(words, 0, size)
      decreases |words| - i
    {
      ChunksFromStep(words, chunks, i, size);
      chunks := chunks + [Join(words[i..Min(i + size, |words|)], WordSeparator)];
      i := i + size;
    }
    assert chunks + ChunksFrom(words, i, size) == chunks;
  }

  /** Every text gives at least one chunk; the empty text gives the single empty chunk. */
  lemma AtLeastOneChunk(text: string, size: nat)
    requires size > 0
    ensures |ChunkTexts(Words(text), size)| >= 1
    ensures text == "" ==> ChunkTexts(Words(text), size) == [""]
  {
    var words := Words(text);
    var first := Join(words[0..Min(size, |words|)], WordSeparator);
    assert ChunkTexts(words, size) == [first] + ChunksFrom(words, size, size);
    if text == "" {
      assert words == [""];
      assert words[0..Min(size, 1)] == [""];
    }
  }

  /**
   * The index builder's own call, with `ChunkSize` words per chunk: there
   * are ceil(number of words / 300) chunks, and always at least one.
   */
  lemma IndexBuilderChunks(text: string)
    ensures |ChunkTexts(Words(text), ChunkSize)| == (|Words(text)| + ChunkSize - 1) / ChunkSize
    ensures |ChunkTexts(Words(text), ChunkSize)| >= 1
  {
    ChunkAt(Words(text), ChunkSize, 0);
    AtLeastOneChunk(text, ChunkSize);
  }

  /** A non-empty slice of well-formed words is well formed. */
  lemma WindowIsWellFormed(words: seq<string>, lo: nat, hi: nat)
    requires WellFormedWords(words) && lo < hi <= |words|
    ensures WellFormedWords(words[lo..hi])
  {
    forall k | 0 < k < hi - lo - 1
      ensures words[lo..hi][k] != ""
    {
      assert words[lo..hi][k] == words[lo + k];
    }
  }

  /**
   * Splitting chunk k again gives back exactly window k, so the chunks'
   * words, read in order, are the words of the text.
   */
  lemma ChunksRoundTrip(text: string, size: nat)
    requires size > 0
    ensures var words := Words(text);
      var chunks := ChunkTexts(words, size);
      |chunks| == |Windows(words, size)| &&
      (forall k :: 0 <= k < |chunks| ==> Words(chunks[k]) == Windows(words, size)[k]) &&
      Concat(seq(|chunks|, k requires 0 <= k < |chunks| => Words(chunks[k]))) == words
  {
    var words := Words(text);
    var ws := Windows(words, size);
    var chunks := ChunkTexts(words, size);
    WordsWellFormed(text);
    ChunkTextsAreJoinedWindows(words, size);
    forall k | 0 <= k < |chunks|
      ensures Words(chunks[k]) == ws[k]
    {
      WindowAt(words, size, k);
      assert Offset(k + 1, size) == Offset(k, size) + size;
      WindowIsWellFormed(words, Offset(k, size), Min(Offset(k + 1, size), |words|));
      WordsOfJoin(ws[k]);
    }
    assert seq(|chunks|, k requires 0 <= k < |chunks| => Words(chunks[k])) == ws;
    WindowsConcat(words, size);
  }

  // Arithmetic and sequence facts used by the proofs above.

  lemma DropSlice<T>(s: seq<T>, d: nat, lo: nat, hi: nat)
    requires d <= |s| && lo <= hi <= |s| - d
    ensures s[d..][lo..hi] == s[d + lo..d + hi]
  {
  }

  lemma MulStep(size: int, q: int)
    ensures (q + 1) * size == q * size + size
    ensures size * (q + 1) == size * q + size
  {
  }

  lemma MulMono(size: int, a: int, b: int)
    requires size > 0 && a <= b
    ensures size * a <= size * b
  {
  }

  /** Quotients are unique: a = size * q + r with 0 <= r < size fixes q. */
  lemma DivUnique(a: int, size: int, q: int, r: int)
    requires size > 0 && 0 <= r < size && a == size * q + r
    ensures a / size == q
  {
    var q' := a / size;
    assert a == size * q' + a % size;
    if q' > q {
      MulMono(size, q + 1, q');
      MulStep(size, q);
    } else if q' < q {
      MulMono(size, q' + 1, q);
      MulStep(size, q');
    }
  }

  lemma DivShift(n: nat, size: nat)
    requires size > 0
    ensures (n + size) / size == 1 + n / size
  {
    MulStep(size, n / size);
    DivUnique(n + size, size, n / size + 1, n % size);
  }

  lemma ConcatAssoc(a: string, b: string, c: string)
    ensures a + (b + c) == a + b + c
  {
  }
}
