/**
 * String helpers behind the JavaScript built-ins the pipeline relies on:
 * `Array.prototype.join` and the decimal rendering of a number inside a
 * template literal.
 */
module Text {

  /** `parts.join(sep)`: the parts in order, with `sep` between neighbours. */
  function Join(parts: seq<string>, sep: string): string
  {
    if |parts| == 0 then ""
    else if |parts| == 1 then parts[0]
    else parts[0] + sep + Join(parts[1..], sep)
  }

  /** A join of two or more parts: the first, a separator, then the join of the rest. */
  lemma JoinCons(parts: seq<string>, sep: string)
    requires |parts| >= 2
    ensures Join(parts, sep) == parts[0] + sep + Join(parts[1..], sep)
  {
  }

  /** Total length of the parts. */
  function SumLengths(parts: seq<string>): nat
  {
    if parts == [] then 0 else |parts[0]| + SumLengths(parts[1..])
  }

  /** Where part k starts inside `Join(parts, sep)`. */
  function PartOffset(parts: seq<string>, sep: string, k: nat): nat
    requires k <= |parts|
  {
    SumLengths(parts[..k]) + k * |sep|
  }

  /** Dropping the first part moves every later offset back by one part and one separator. */
  lemma OffsetShift(parts: seq<string>, sep: string, k: nat)
    requires 0 < k <= |parts|
    ensures PartOffset(parts, sep, k) == |parts[0]| + |sep| + PartOffset(parts[1..], sep, k - 1)
  {
    assert parts[..k][1..] == parts[1..][..k - 1];
    assert k * |sep| == (k - 1) * |sep| + |sep|;
  }

  lemma {:induction false} JoinLength(parts: seq<string>, sep: string)
    requires |parts| >= 1
    ensures |Join(parts, sep)| == SumLengths(parts) + (|parts| - 1) * |sep|
  {
    if |parts| == 1 {
      assert parts[1..] == [];
    } else {
      JoinLength(parts[1..], sep);
      assert (|parts| - 1) * |sep| == (|parts| - 2) * |sep| + |sep|;
    }
  }

  /** `part` occurs in `s` starting at position `at`. */
  predicate OccursAt(s: string, at: nat, part: string)
  {
    at + |part| <= |s| && s[at..at + |part|] == part
  }

  /**
   * The layout of a join, independently of how Join is computed: the result
   * is as long as the parts plus one separator between each two neighbours,
   * part k sits at PartOffset(k), and a separator follows every part but the
   * last.
   */
  lemma {:induction false} JoinLayout(parts: seq<string>, sep: string, k: nat)
    requires k < |parts|
    ensures |Join(parts, sep)| == SumLengths(parts) + (|parts| - 1) * |sep|
    ensures OccursAt(Join(parts, sep), PartOffset(parts, sep, k), parts[k])
    ensures k + 1 < |parts| ==> OccursAt(Join(parts, sep), PartOffset(parts, sep, k) + |parts[k]|, sep)
  {
    JoinLength(parts, sep);
    if k == 0 {
      assert parts[..0] == [];
      JoinHead(parts, sep);
    } else {
      var rest := parts[1..];
      var d := parts[0] + sep;
      assert Join(parts, sep) == d + Join(rest, sep);
      JoinLayout(rest, sep, k - 1);
      OffsetShift(parts, sep, k);
      var o := PartOffset(rest, sep, k - 1);
      OccursAtShift(d, Join(rest, sep), o, parts[k]);
      if k + 1 < |parts| {
        OccursAtShift(d, Join(rest, sep), o + |parts[k]|, sep);
      }
    }
  }

  /** A join starts with its first part, followed by a separator when more parts come. */
  lemma JoinHead(parts: seq<string>, sep: string)
    requires |parts| >= 1
    ensures OccursAt(Join(parts, sep), 0, parts[0])
    ensures |parts| > 1 ==> OccursAt(Join(parts, sep), |parts[0]|, sep)
  {
    if |parts| > 1 {
      var j := Join(parts, sep);
      assert j == parts[0] + sep + Join(parts[1..], sep);
      assert j[..|parts[0]|] == parts[0];
      assert j[|parts[0]|..|parts[0]| + |sep|] == sep;
    }
  }

  /** What occurs in the second half of a concatenation occurs in the whole, shifted by the first half. */
  lemma OccursAtShift(a: string, b: string, at: nat, part: string)
    requires OccursAt(b, at, part)
    ensures OccursAt(a + b, |a| + at, part)
  {
    assert (a + b)[|a| + at..|a| + at + |part|] == b[at..at + |part|];
  }

  /** The character of a decimal digit 0..9. */
  function DigitChar(d: nat): char
    requires d < 10
  {
    ['0', '1', '2', '3', '4', '5', '6', '7', '8', '9'][d]
  }

  predicate IsDigit(c: char)
  {
    '0' <= c <= '9'
  }

  function DigitValue(c: char): nat
    requires IsDigit(c)
  {
    (c as int) - ('0' as int)
  }

  /** The value of a string of decimal digits. */
  function DecimalValue(s: string): nat
    requires forall i :: 0 <= i < |s| ==> IsDigit(s[i])
  {
    if s == [] then 0
    else 10 * DecimalValue(s[..|s| - 1]) + DigitValue(s[|s| - 1])
  }

  /** The decimal rendering of a natural number, as `${n}` produces it. */
  function NatToString(n: nat): (s: string)
    ensures |s| >= 1
    ensures forall i :: 0 <= i < |s| ==> IsDigit(s[i])
    ensures |s| > 1 ==> s[0] != '0'
  {
    if n < 10 then [DigitChar(n)]
    else NatToString(n / 10) + [DigitChar(n % 10)]
  }

  /** Reading the rendering back gives the number: no two numbers share a label. */
  lemma {:induction false} NatToStringRoundTrip(n: nat)
    ensures DecimalValue(NatToString(n)) == n
  {
    var s := NatToString(n);
    if n >= 10 {
      NatToStringRoundTrip(n / 10);
      assert s[..|s| - 1] == NatToString(n / 10);
    }
  }
}
