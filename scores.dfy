/**
 * Values shared by every stage of the score alignment engine: per-base score
 * tokens and table cells, sums and means over reals, and Python's slice rule.
 */
module Scores {

  datatype Option<T> = None | Some(value: T)

  /**
   * A per-base track token or a table cell: a number, or the explicit
   * missing marker. In a conservation track the marker is the token "NA",
   * in a raw shape track the token "NULL", in the conservation output NaN
   * and in the parsed-shape and final tables the text "NA".
   */
  datatype Score = Num(value: real) | Missing

  /** Sum of a sequence of reals, accumulated left to right. */
  function Sum(xs: seq<real>): real
  {
    if xs == [] then 0.0 else Sum(xs[..|xs| - 1]) + xs[|xs| - 1]
  }

  /** Arithmetic mean of a non-empty sequence. */
  function Mean(xs: seq<real>): (m: real)
    requires xs != []
    ensures m * |xs| as real == Sum(xs)
  {
    Sum(xs) / |xs| as real
  }

  /** The numbers of a token sequence that holds no missing marker. */
  function Values(raw: seq<Score>): (xs: seq<real>)
    requires Missing !in raw
    ensures |xs| == |raw|
    ensures forall k :: 0 <= k < |raw| ==> raw[k] == Num(xs[k])
  {
    assert forall k :: 0 <= k < |raw| ==> raw[k] != Missing;
    seq(|raw|, k requires 0 <= k < |raw| => raw[k].value)
  }

  lemma {:induction false} SumAppend(xs: seq<real>, ys: seq<real>)
    ensures Sum(xs + ys) == Sum(xs) + Sum(ys)
    decreases |ys|
  {
    if ys == [] {
      assert xs + ys == xs;
    } else {
      var last := |ys| - 1;
      assert (xs + ys)[..|xs + ys| - 1] == xs + ys[..last];
      SumAppend(xs, ys[..last]);
    }
  }

  lemma {:induction false} SumBounds(xs: seq<real>, lo: real, hi: real)
    requires forall k :: 0 <= k < |xs| ==> lo <= xs[k] <= hi
    ensures lo * |xs| as real <= Sum(xs) <= hi * |xs| as real
  {
    if xs != [] {
      SumBounds(xs[..|xs| - 1], lo, hi);
      assert lo * |xs| as real == lo * (|xs| - 1) as real + lo;
      assert hi * |xs| as real == hi * (|xs| - 1) as real + hi;
    }
  }

  lemma DivideBounds(s: real, n: real, lo: real, hi: real)
    requires n > 0.0 && lo * n <= s <= hi * n
    ensures lo <= s / n <= hi
  {
  }

  /** A mean lies between any bounds of the values it averages. */
  lemma MeanBounds(xs: seq<real>, lo: real, hi: real)
    requires xs != []
    requires forall k :: 0 <= k < |xs| ==> lo <= xs[k] <= hi
    ensures lo <= Mean(xs) <= hi
  {
    SumBounds(xs, lo, hi);
    DivideBounds(Sum(xs), |xs| as real, lo, hi);
  }

  /** The ramp `a, a + 1, ..., a + m - 1`. */
  function Ramp(a: real, m: nat): (xs: seq<real>)
    ensures |xs| == m
    ensures forall k :: 0 <= k < m ==> xs[k] == a + k as real
  {
    seq(m, k requires 0 <= k < m => a + k as real)
  }

  /** Gauss's sum of a ramp. */
  lemma {:induction false} RampSum(a: real, m: nat)
    ensures Sum(Ramp(a, m)) == m as real * a + (m as real * (m as real - 1.0)) / 2.0
  {
    if m > 0 {
      assert Ramp(a, m)[..m - 1] == Ramp(a, m - 1);
      RampSum(a, m - 1);
    }
  }

  /**
   * One bound of a Python slice `s[start:stop]` on a sequence of length
   * `len`: a negative bound counts from the end, then the bound is clamped
   * to `[0, len]`.
   */
  function SliceBound(b: int, len: nat): (r: nat)
    ensures r <= len
    ensures 0 <= b <= len ==> r == b
    ensures b > len ==> r == len
    ensures -(len as int) <= b < 0 ==> r == b + len
    ensures b < -(len as int) ==> r == 0
  {
    if b < 0 then (if b + len < 0 then 0 else b + len)
    else if b > len then len
    else b
  }

  /** Python's `s[start:stop]` (step 1). */
  function Slice<T>(s: seq<T>, start: int, stop: int): (r: seq<T>)
    ensures |r| <= |s|
    ensures var lo, hi := SliceBound(start, |s|), SliceBound(stop, |s|);
      |r| == (if lo < hi then hi - lo else 0)
      && forall k :: 0 <= k < |r| ==> r[k] == s[lo + k]
  {
    var lo, hi := SliceBound(start, |s|), SliceBound(stop, |s|);
    if lo < hi then s[lo..hi] else []
  }

  /** A half-open window `[start, stop)` of base positions, taken with `Slice`. */
  datatype Window = Window(start: int, stop: int)

  function Cut<T>(s: seq<T>, w: Window): seq<T>
  {
    Slice(s, w.start, w.stop)
  }

  /**
   * A negative start counts from the end of the sequence and is not
   * clamped to 0 first: the slice then starts near the end.
   */
  lemma SliceCountsFromEnd<T>(s: seq<T>, start: int, stop: int)
    requires start < 0 <= start + |s|
    ensures Slice(s, start, stop) == Slice(s, start + |s|, stop)
  {
  }

  /** Adjacent non-negative windows cut adjacent pieces. */
  lemma SliceSplit<T>(s: seq<T>, a: int, b: int, c: int)
    requires 0 <= a <= b <= c
    ensures Slice(s, a, b) + Slice(s, b, c) == Slice(s, a, c)
  {
    var la, lb, lc := SliceBound(a, |s|), SliceBound(b, |s|), SliceBound(c, |s|);
    assert la <= lb <= lc;
    if la < lb && lb < lc {
      assert s[la..lb] + s[lb..lc] == s[la..lc];
    } else if la < lb {
      assert Slice(s, b, c) == [];
    } else if lb < lc {
      assert Slice(s, a, b) == [];
    }
  }

  /** A window of length `len` that fits the sequence cuts exactly `len` tokens. */
  lemma SliceLength<T>(s: seq<T>, start: int, len: nat)
    requires 0 <= start && start + len <= |s|
    ensures |Slice(s, start, start + len)| == len
  {
  }
}
