/**
 * The three JavaScript string operations the snippet title derivation uses:
 * `String.prototype.indexOf`, `String.prototype.lastIndexOf` (both without a
 * position argument) and `String.prototype.slice`. A string is a sequence of
 * code units; the indices are those of the sequence.
 */
module JsString {

  /** `p` occurs in `s` starting at index `k`. */
  predicate OccursAt(s: string, p: string, k: int) {
    0 <= k && k + |p| <= |s| && s[k..k + |p|] == p
  }

  /** `p` is a contiguous substring of `s`. */
  ghost predicate Contains(s: string, p: string) {
    exists k :: OccursAt(s, p, k)
  }

  /** The first occurrence of `p` in `s` at or after `from`, or -1. */
  function IndexOfFrom(s: string, p: string, from: nat): (r: int)
    decreases |s| - from
    ensures r == -1 || (from <= r && OccursAt(s, p, r))
    ensures forall k :: from <= k && (r == -1 || k < r) ==> !OccursAt(s, p, k)
  {
    if |s| < from + |p| then -1
    else if s[from..from + |p|] == p then from
    else IndexOfFrom(s, p, from + 1)
  }

  /** `s.indexOf(p)`: the least index at which `p` occurs, or -1 when it does not occur. */
  function IndexOf(s: string, p: string): (r: int)
    ensures r == -1 || OccursAt(s, p, r)
    ensures forall k :: 0 <= k && (r == -1 || k < r) ==> !OccursAt(s, p, k)
    ensures r == -1 <==> !Contains(s, p)
  {
    IndexOfFrom(s, p, 0)
  }

  /** The last occurrence of `p` in `s` starting at or before `k`, or -1. */
  function LastIndexAtOrBelow(s: string, p: string, k: int): (r: int)
    decreases k + 1
    ensures r == -1 || (r <= k && OccursAt(s, p, r))
    ensures forall j :: r < j <= k ==> !OccursAt(s, p, j)
  {
    if k < 0 then -1
    else if OccursAt(s, p, k) then k
    else LastIndexAtOrBelow(s, p, k - 1)
  }

  /** `s.lastIndexOf(p)`: the greatest index at which `p` occurs, or -1 when it does not occur. */
  function LastIndexOf(s: string, p: string): (r: int)
    ensures r == -1 || OccursAt(s, p, r)
    ensures forall j :: r < j ==> !OccursAt(s, p, j)
    ensures r == -1 <==> !Contains(s, p)
  {
    LastIndexAtOrBelow(s, p, |s| - |p|)
  }

  /**
   * How `slice` turns one of its arguments into a position of a string of
   * length `len`: a negative argument counts back from the end (and stops at
   * 0), a non-negative one is capped at `len`.
   */
  function ResolveIndex(i: int, len: nat): (r: nat)
    ensures r <= len
  {
    if i < 0 then (if len + i < 0 then 0 else len + i)
    else if i > len then len
    else i
  }

  /**
   * `s.slice(start, end)`: the code units from the resolved start up to but
   * excluding the resolved end, and the empty string when the resolved end
   * does not lie after the resolved start.
   */
  function Slice(s: string, start: int, end: int): (r: string)
    ensures |r| <= |s|
    ensures 0 <= start <= end <= |s| ==> r == s[start..end]
    ensures 0 <= end <= start ==> r == []
    ensures 0 <= start && end < 0 ==>
              r == (if start < |s| + end then s[start..|s| + end] else [])
    ensures Contains(s, r)
  {
    var from := ResolveIndex(start, |s|);
    var to := ResolveIndex(end, |s|);
    if from < to then
      assert OccursAt(s, s[from..to], from);
      s[from..to]
    else
      assert OccursAt(s, [], 0);
      []
  }

  /** A one-code-unit pattern occurs exactly where that code unit stands. */
  lemma OccursAtSingle(s: string, c: char, k: int)
    ensures OccursAt(s, [c], k) <==> 0 <= k < |s| && s[k] == c
  {
  }

  /** An occurrence of a non-empty pattern starts with the pattern's first code unit. */
  lemma OccurrenceStartsWith(s: string, p: string, k: int)
    requires |p| > 0
    requires OccursAt(s, p, k)
    ensures s[k] == p[0]
  {
  }
}
