/**
 * The descending, stable sort that retrieval applies to the scored chunks
 * (`scored.sort((a, b) => b.score - a.score)` in src/core/rag/Retrieval.ts;
 * `Array.prototype.sort` is stable). The specification is insertion sort on
 * sequences; the in-place method on an array is proved to compute it.
 */
module StableSort {
  import opened Types

  /**
   * Inserts x behind every element scoring at least x.score, scanning from
   * the right: equal scores keep their order of arrival.
   */
  function Insert(t: seq<Retrieved>, x: Retrieved): (r: seq<Retrieved>)
    ensures |r| == |t| + 1
  {
    if t == [] || t[|t| - 1].score >= x.score then t + [x]
    else
      var n := |t| - 1;
      Insert(t[..n], x) + [t[n]]
  }

  /** Insertion adds x and loses nothing. */
  lemma {:induction false} InsertPermutes(t: seq<Retrieved>, x: Retrieved)
    ensures multiset(Insert(t, x)) == multiset(t) + multiset{x}
  {
    if t != [] && t[|t| - 1].score < x.score {
      var n := |t| - 1;
      assert t == t[..n] + [t[n]];
      InsertPermutes(t[..n], x);
    }
  }

  /** The sorted order: each element inserted, in turn, into the sorted prefix before it. */
  function SortByScore(s: seq<Retrieved>): (r: seq<Retrieved>)
    ensures |r| == |s|
  {
    if s == [] then []
    else
      var n := |s| - 1;
      Insert(SortByScore(s[..n]), s[n])
  }

  /** The sorted sequence is a permutation of its input. */
  lemma {:induction false} SortByScorePermutes(s: seq<Retrieved>)
    ensures multiset(SortByScore(s)) == multiset(s)
  {
    if s != [] {
      var n := |s| - 1;
      assert s == s[..n] + [s[n]];
      SortByScorePermutes(s[..n]);
      InsertPermutes(SortByScore(s[..n]), s[n]);
    }
  }

  /** Scores never increase along the sequence. */
  ghost predicate NonIncreasing(s: seq<Retrieved>)
  {
    forall i, j :: 0 <= i < j < |s| ==> s[i].score >= s[j].score
  }

  /** The elements of s that score exactly v, in their order in s. */
  function WithScore(s: seq<Retrieved>, v: real): seq<Retrieved>
  {
    if s == [] then []
    else (if s[0].score == v then [s[0]] else []) + WithScore(s[1..], v)
  }

  lemma {:induction false} WithScoreAppend(a: seq<Retrieved>, b: seq<Retrieved>, v: real)
    ensures WithScore(a + b, v) == WithScore(a, v) + WithScore(b, v)
  {
    if a == [] {
      assert a + b == b;
    } else {
      var head := if a[0].score == v then [a[0]] else [];
      assert (a + b)[0] == a[0];
      assert (a + b)[1..] == a[1..] + b;
      assert WithScore(a + b, v) == head + WithScore(a[1..] + b, v);
      WithScoreAppend(a[1..], b, v);
      assert head + (WithScore(a[1..], v) + WithScore(b, v)) == (head + WithScore(a[1..], v)) + WithScore(b, v);
    }
  }

  /** Inserting into a sorted sequence keeps it sorted. */
  lemma {:induction false} InsertKeepsOrder(t: seq<Retrieved>, x: Retrieved)
    requires NonIncreasing(t)
    ensures NonIncreasing(Insert(t, x))
  {
    if t != [] && t[|t| - 1].score < x.score {
      var n := |t| - 1;
      var u := Insert(t[..n], x);
      InsertKeepsOrder(t[..n], x);
      assert Insert(t, x) == u + [t[n]];
      InsertPermutes(t[..n], x);
      forall y | y in u
        ensures y.score >= t[n].score
      {
        assert y in multiset(u);
        if y != x {
          assert y in t[..n];
        }
      }
    }
  }

  /**
   * Insertion is stable: among the elements scoring v, x lands after all
   * the ones already there.
   */
  lemma {:induction false} InsertIsStable(t: seq<Retrieved>, x: Retrieved, v: real)
    ensures WithScore(Insert(t, x), v) == WithScore(t, v) + WithScore([x], v)
  {
    if t == [] || t[|t| - 1].score >= x.score {
      WithScoreAppend(t, [x], v);
    } else {
      var n := |t| - 1;
      assert t == t[..n] + [t[n]];
      InsertIsStable(t[..n], x, v);
      WithScoreAppend(Insert(t[..n], x), [t[n]], v);
      WithScoreAppend(t[..n], [t[n]], v);
      assert [x][1..] == [] && [t[n]][1..] == [];
    }
  }

  /** The specification sorts by non-increasing score. */
  lemma {:induction false} SortByScoreIsSorted(s: seq<Retrieved>)
    ensures NonIncreasing(SortByScore(s))
  {
    if s != [] {
      var n := |s| - 1;
      SortByScoreIsSorted(s[..n]);
      InsertKeepsOrder(SortByScore(s[..n]), s[n]);
    }
  }

  /** The specification is stable: elements of equal score keep their input order. */
  lemma {:induction false} SortByScoreIsStable(s: seq<Retrieved>, v: real)
    ensures WithScore(SortByScore(s), v) == WithScore(s, v)
  {
    if s != [] {
      var n := |s| - 1;
      SortByScoreIsStable(s[..n], v);
      InsertIsStable(SortByScore(s[..n]), s[n], v);
      assert s == s[..n] + [s[n]];
      WithScoreAppend(s[..n], [s[n]], v);
    }
  }

  /** An input that is already sorted comes out unchanged. */
  lemma {:induction false} SortedInputUnchanged(s: seq<Retrieved>)
    requires NonIncreasing(s)
    ensures SortByScore(s) == s
  {
    if s != [] {
      var n := |s| - 1;
      var t := s[..n];
      PrefixNonIncreasing(s, n);
      SortedInputUnchanged(t);
      assert n == 0 || t[n - 1].score >= s[n].score by {
        if n > 0 {
          assert t[n - 1] == s[n - 1];
        }
      }
      InsertAt(t, s[n], n);
      assert t[..n] == t && t[n..] == [];
      assert s == t + [s[n]];
    }
  }

  /** A prefix of a non-increasing list is non-increasing. */
  lemma PrefixNonIncreasing(s: seq<Retrieved>, n: nat)
    requires NonIncreasing(s) && n <= |s|
    ensures NonIncreasing(s[..n])
  {
  }

  /** Sorting one more element of the input is one more insertion. */
  lemma SortStep(s: seq<Retrieved>, i: nat)
    requires i < |s|
    ensures SortByScore(s[..i + 1]) == Insert(SortByScore(s[..i]), s[i])
  {
    assert s[..i + 1][..i] == s[..i];
  }

  /**
   * Where Insert puts x: right after the last element scoring at least
   * x.score, when every element from there on scores less.
   */
  lemma {:induction false} InsertAt(t: seq<Retrieved>, x: Retrieved, j: nat)
    requires j <= |t|
    requires j == 0 || t[j - 1].score >= x.score
    requires forall k :: j <= k < |t| ==> t[k].score < x.score
    ensures Insert(t, x) == t[..j] + [x] + t[j..]
    decreases |t|
  {
    if j == |t| {
      assert t[..j] == t;
    } else {
      var n := |t| - 1;
      assert t[n].score < x.score;
      assert Insert(t, x) == Insert(t[..n], x) + [t[n]];
      InsertAt(t[..n], x, j);
      assert t[..n][..j] == t[..j];
      assert t[j..] == t[..n][j..] + [t[n]];
    }
  }

  /**
   * Shifts a[i] left past every element of a[..i] that scores strictly less,
   * so that a[..i + 1] becomes Insert(a[..i], a[i]).
   */
  method InsertInPlace(a: array<Retrieved>, i: nat)
    requires i < a.Length
    modifies a
    ensures a[..i + 1] == Insert(old(a[..i]), old(a[i]))
    ensures a[i + 1..] == old(a[i + 1..])
  {
    var x := a[i];
    ghost var t := a[..i];
    var j := i;
    while j > 0 && a[j - 1].score < x.score
      invariant 0 <= j <= i
      invariant forall k :: 0 <= k < j ==> a[k] == t[k]
      invariant forall k :: j < k <= i ==> a[k] == t[k - 1]
      invariant forall k :: i < k < a.Length ==> a[k] == old(a[k])
      invariant forall k :: j <= k < i ==> t[k].score < x.score
    {
      a[j] := a[j - 1];
      j := j - 1;
    }
    a[j] := x;
    InsertAt(t, x, j);
    assert a[..i + 1] == t[..j] + [x] + t[j..];
  }

  /** `scored.sort(...)`: sorts the array in place into SortByScore of its old contents. */
  method SortInPlace(a: array<Retrieved>)
    modifies a
    ensures a[..] == SortByScore(old(a[..]))
  {
    ghost var s := a[..];
    var i := 0;
    while i < a.Length
      invariant 0 <= i <= a.Length
      invariant a[..i] == SortByScore(s[..i])
      invariant a[i..] == s[i..]
    {
      SortStep(s, i);
      ghost var sorted := a[..i];
      assert a[i] == s[i] by {
        assert a[i..][0] == s[i..][0];
      }
      assert a[i + 1..] == s[i + 1..] by {
        assert a[i + 1..] == a[i..][1..] && s[i + 1..] == s[i..][1..];
      }
      InsertInPlace(a, i);
      assert a[..i + 1] == Insert(sorted, s[i]);
      i := i + 1;
    }
    assert a[..] == a[..a.Length];
    assert s == s[..a.Length];
  }
}
