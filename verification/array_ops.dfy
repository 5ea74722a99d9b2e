/**
 The two `Array.prototype` methods the genre listing relies on: `filter`,
 which keeps the elements a predicate accepts in their original order, and
 `slice`, whose negative arguments count back from the end of the array
 (section 23.1.3 of ECMA-262).
 */
module ArrayOps {

  /** `s.filter(keep)`. */
  function Filter<T>(s: seq<T>, keep: T -> bool): (r: seq<T>)
    ensures |r| <= |s|
    ensures forall i :: 0 <= i < |r| ==> keep(r[i])
    ensures forall x :: x in r ==> x in s
    ensures forall x :: x in s && keep(x) ==> x in r
    decreases |s|
  {
    if |s| == 0 then []
    else
      var tail := Filter(s[1..], keep);
      assert forall x :: x in s[1..] ==> x in s;
      assert forall x :: x in s ==> x == s[0] || x in s[1..];
      if keep(s[0]) then [s[0]] + tail else tail
  }

  /** `filter` distributes over concatenation; with the one-element case
      this determines it completely: the kept elements in their order. */
  lemma {:induction false} FilterAppend<T>(a: seq<T>, b: seq<T>, keep: T -> bool)
    ensures Filter(a + b, keep) == Filter(a, keep) + Filter(b, keep)
    decreases |a|
  {
    if |a| == 0 {
      assert a + b == b;
    } else {
      assert (a + b)[0] == a[0];
      assert (a + b)[1..] == a[1..] + b;
      FilterAppend(a[1..], b, keep);
    }
  }

  /** The position a relative index of `slice` stands for, in an array of
      length `len`: a negative one counts back from the end, and both ends
      are clamped to the array. */
  function RelativeIndex(i: int, len: nat): (r: nat)
    ensures r <= len
  {
    if i < 0 then (if len + i < 0 then 0 else len + i)
    else if i < len then i else len
  }

  /** Two relative indices of the same sign keep their order, and the
      positions they stand for are never further apart than the indices
      themselves, which is why a slice is never longer than its bounds are
      apart. Across signs the order can flip: in an array of 10, index -1
      stands for position 9 and index 0 for position 0. */
  lemma RelativeIndexMonotone(i: int, j: int, len: nat)
    requires i <= j
    ensures (i < 0) == (j < 0) ==> RelativeIndex(i, len) <= RelativeIndex(j, len)
    ensures RelativeIndex(j, len) - RelativeIndex(i, len) <= j - i
  {
  }

  function Min(a: int, b: int): int {
    if a < b then a else b
  }

  /** `s.slice(start, end)`. With non-negative bounds it is the ordinary
      sub-sequence with the bounds cut down to the length of the array; with
      negative bounds inside the array both count back from the end; and it
      never holds more elements than its bounds are apart, whatever their signs. */
  function Slice<T>(s: seq<T>, start: int, end: int): (r: seq<T>)
    ensures forall x :: x in r ==> x in s
    ensures 0 <= start <= end ==> r == s[Min(start, |s|)..Min(end, |s|)]
    ensures -|s| <= start <= end < 0 ==> r == s[|s| + start..|s| + end]
    ensures start <= end ==> |r| <= end - start
  {
    var from := RelativeIndex(start, |s|);
    var to := RelativeIndex(end, |s|);
    assert start <= end ==> to - from <= end - start by {
      if start <= end { RelativeIndexMonotone(start, end, |s|); }
    }
    if from < to then s[from..to] else []
  }
}
