/** ECMAScript `Array.prototype.slice`: negative
    positions count from the end, positions past either end are clamped, and an end at or
    before the start gives the empty array. */
module JsArray {

  /** The position `slice` uses for argument `i` on an array of length `len`. */
  function RelativeIndex(i: int, len: nat): (r: nat)
    ensures r <= len
    ensures 0 <= i <= len ==> r == i
    ensures i > len ==> r == len
    ensures i < 0 ==> r == if len + i < 0 then 0 else len + i
  {
    if i < 0 then (if len + i < 0 then 0 else len + i)
    else if i > len then len
    else i
  }

  function Slice<T>(s: seq<T>, start: int, end: int): (r: seq<T>)
    ensures |r| <= |s|
  {
    var from, to := RelativeIndex(start, |s|), RelativeIndex(end, |s|);
    if from < to then s[from..to] else []
  }

  function MinNat(a: nat, b: nat): nat {
    if a <= b then a else b
  }

  /** For non-negative positions the slice is the contiguous run between them, cut at the end. */
  lemma SliceNonNegative<T>(s: seq<T>, start: nat, end: nat)
    requires start <= end
    ensures Slice(s, start, end) == s[MinNat(start, |s|)..MinNat(end, |s|)]
    ensures |Slice(s, start, end)| <= end - start
  {
  }

  /** `slice(0, n)` with n > 0 is the first n elements, or all of them when there are fewer. */
  lemma SlicePrefix<T>(s: seq<T>, n: nat)
    ensures Slice(s, 0, n) == s[..MinNat(n, |s|)]
  {
  }

  /** Adjacent slices join up: pages taken one after the other cover the combined range. */
  lemma SliceAdjacent<T>(s: seq<T>, a: nat, b: nat, c: nat)
    requires a <= b <= c
    ensures Slice(s, a, b) + Slice(s, b, c) == Slice(s, a, c)
  {
    var i, j, k := MinNat(a, |s|), MinNat(b, |s|), MinNat(c, |s|);
    assert s[i..j] + s[j..k] == s[i..k];
  }

  /** Pages named by their slices: the page at `a` of size `l` followed by the page at `a + l`
      of size `l` is the page at `a` of size `2 * l`. */
  lemma PagesCover<T>(s: seq<T>, p1: seq<T>, p2: seq<T>, p3: seq<T>, a: nat, l: nat)
    requires p1 == Slice(s, a, a + l) && p2 == Slice(s, a + l, a + 2 * l) && p3 == Slice(s, a, a + 2 * l)
    ensures p1 + p2 == p3
  {
    SliceAdjacent(s, a, a + l, a + 2 * l);
  }
}
