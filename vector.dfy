/**
 * The one-dimensional container of MatrixDSP: a row or column vector of
 * samples held in a resizable buffer, with the in-place signal operations
 * of src/Vector.h.  Samples are modelled as `real`; the buffer is a `seq`
 * that each operation reassigns.
 */
module Vectors {
  import opened Arith
  import opened Optional

  // ---------------------------------------------------------------------
  // Specification functions
  // ---------------------------------------------------------------------

  /** `n` copies of `x`. */
  function Fill(n: nat, x: real): (r: seq<real>)
    ensures |r| == n && forall i :: 0 <= i < n ==> r[i] == x
  {
    seq(n, _ => x)
  }

  /** Elementwise sum of two equally long vectors. */
  function Plus(a: seq<real>, b: seq<real>): seq<real>
    requires |a| == |b|
  {
    seq(|a|, i requires 0 <= i < |a| => a[i] + b[i])
  }

  /** Elementwise difference of two equally long vectors. */
  function Minus(a: seq<real>, b: seq<real>): seq<real>
    requires |a| == |b|
  {
    seq(|a|, i requires 0 <= i < |a| => a[i] - b[i])
  }

  /** Elementwise product of two equally long vectors. */
  function Times(a: seq<real>, b: seq<real>): seq<real>
    requires |a| == |b|
  {
    seq(|a|, i requires 0 <= i < |a| => a[i] * b[i])
  }

  /** Subtracting what was added gives back the original vector, and the other way round. */
  lemma PlusMinus(a: seq<real>, b: seq<real>)
    requires |a| == |b|
    ensures Minus(Plus(a, b), b) == a && Plus(Minus(a, b), b) == a
  {
    assert Minus(Plus(a, b), b) == a;
    assert Plus(Minus(a, b), b) == a;
  }

  /** `std::rotate(begin, begin + k, end)`: the element at `k` moves to the front. */
  function RotateLeft(v: seq<real>, k: nat): seq<real>
    requires k <= |v|
  {
    v[k..] + v[..k]
  }

  /** After rotating left by `k`, position `i` holds what was `k` places further on, cyclically. */
  lemma RotateLeftAt(v: seq<real>, k: nat, i: nat)
    requires k < |v| && i < |v|
    ensures |RotateLeft(v, k)| == |v| && RotateLeft(v, k)[i] == v[(i + k) % |v|]
  {
    if i + k < |v| {
      DivModUnique(i + k, |v|, 0, i + k);
    } else {
      DivModUnique(i + k, |v|, 1, i + k - |v|);
    }
  }

  /** Rotating by `k` and then by the rest of the length restores the vector. */
  lemma RotateLeftInverse(v: seq<real>, k: nat)
    requires k <= |v|
    ensures RotateLeft(RotateLeft(v, k), |v| - k) == v
  {
    assert RotateLeft(v, k)[|v| - k..] == v[..k];
    assert RotateLeft(v, k)[..|v| - k] == v[k..];
  }

  /** Circular shift to the left by `shift` places, either sign: position `i` takes the sample `shift` places on. */
  function Rotated(v: seq<real>, shift: int): seq<real>
  {
    if |v| == 0 then v else RotateLeft(v, shift % |v|)
  }

  /** Position `i` of a rotation holds the sample `shift` places on, cyclically. */
  lemma RotatedAt(v: seq<real>, shift: int, i: nat)
    requires i < |v|
    ensures |Rotated(v, shift)| == |v| && 0 <= (i + shift) % |v| < |v|
    ensures Rotated(v, shift)[i] == v[(i + shift) % |v|]
  {
    var n := |v|;
    var k := shift % n;
    RotateLeftAt(v, k, i);
    DivModUnique(k, n, 0, k);
    ModSum(i, k, shift, n);
  }

  /** Two `std::rotate` calls make one, by the sum of the shifts less a full turn if it passes one. */
  lemma RotateLeftTwice(v: seq<real>, k1: nat, k2: nat)
    requires k1 < |v| && k2 < |v|
    ensures k1 + k2 < |v| ==> RotateLeft(RotateLeft(v, k1), k2) == RotateLeft(v, k1 + k2)
    ensures k1 + k2 >= |v| ==> RotateLeft(RotateLeft(v, k1), k2) == RotateLeft(v, k1 + k2 - |v|)
  {
    var n := |v|;
    var r := RotateLeft(v, k1);
    if k1 + k2 <= n {
      assert r[k2..] == v[k1 + k2..] + v[..k1];
      assert r[..k2] == v[k1..k1 + k2];
      assert v[..k1] + v[k1..k1 + k2] == v[..k1 + k2];
      if k1 + k2 == n {
        assert RotateLeft(v, k1 + k2 - n) == v;
      }
    } else {
      var m := k1 + k2 - n;
      assert r[k2..] == v[m..k1];
      assert r[..k2] == v[k1..] + v[..m];
      assert v[m..k1] + v[k1..] == v[m..];
    }
  }

  /** Two rotations add up, whatever their signs. */
  lemma RotatedCompose(v: seq<real>, a: int, b: int)
    ensures Rotated(Rotated(v, a), b) == Rotated(v, a + b)
  {
    var n := |v|;
    if n > 0 {
      var ka, kb := a % n, b % n;
      RotateLeftTwice(v, ka, kb);
      var r := Rotated(v, a);
      assert r == RotateLeft(v, ka) && |r| == n;
      assert Rotated(r, b) == RotateLeft(r, kb);
      var c := a + b;
      assert a == (a / n) * n + ka && b == (b / n) * n + kb;
      assert (a / n + b / n) * n == (a / n) * n + (b / n) * n;
      assert (a / n + b / n + 1) * n == (a / n) * n + (b / n) * n + n;
      if ka + kb < n {
        DivModUnique(c, n, a / n + b / n, ka + kb);
      } else {
        DivModUnique(c, n, a / n + b / n + 1, ka + kb - n);
      }
    }
  }

  /** Rotating by `shift` and back by `-shift` restores the vector. */
  lemma RotatedInverse(v: seq<real>, shift: int)
    ensures Rotated(Rotated(v, shift), -shift) == v
  {
    RotatedCompose(v, shift, -shift);
    forall i | 0 <= i < |v|
      ensures i % |v| == i
    {
      DivModUnique(i, |v|, 0, i);
    }
  }

  /** `std::rotate` by a shift reduced into `[0, n)` is the rotation by the unreduced shift. */
  lemma RotateLeftIsRotated(v: seq<real>, shift: nat, numToShift: int)
    requires shift < |v| && shift % |v| == numToShift % |v|
    ensures RotateLeft(v, shift) == Rotated(v, numToShift)
  {
    DivModUnique(shift, |v|, 0, shift);
  }

  /** A vector of at most one sample is its own rotation. */
  lemma RotateShort(v: seq<real>, numToShift: int)
    requires |v| <= 1
    ensures Rotated(v, numToShift) == v
  {
    if |v| == 1 {
      DivModUnique(numToShift, 1, numToShift, 0);
    }
  }

  /** `std::reverse`: the last element first. */
  function Reversed(v: seq<real>): (r: seq<real>)
    ensures |r| == |v| && forall i :: 0 <= i < |v| ==> r[i] == v[|v| - 1 - i]
  {
    if |v| == 0 then [] else [v[|v| - 1]] + Reversed(v[..|v| - 1])
  }

  /** Reversing twice gives back the vector. */
  lemma ReversedTwice(v: seq<real>)
    ensures Reversed(Reversed(v)) == v
  {
  }

  /** `std::vector::resize(len, val)`: truncate, or extend with copies of `val`. */
  function Resized(v: seq<real>, len: nat, val: real): (r: seq<real>)
    ensures |r| == len
    ensures forall i :: 0 <= i < len ==> r[i] == if i < |v| then v[i] else val
  {
    if len <= |v| then v[..len] else v + Fill(len - |v|, val)
  }

  /** Padding and then resizing back to the old length gives back the vector. */
  lemma PadThenTrim(v: seq<real>, len: nat, val: real, other: real)
    ensures Resized(Resized(v, |v| + len, val), |v|, other) == v
  {
  }

  /**
   * Upsampling by `rate` at `phase`: sample `i` moves to `i * rate + phase`,
   * every other slot is zero.
   */
  function Upsampled(v: seq<real>, rate: nat, phase: nat): seq<real>
    requires 0 <= phase < rate
  {
    seq(|v| * rate, x requires 0 <= x < |v| * rate =>
      if x % rate == phase && x / rate < |v| then v[x / rate] else 0.0)
  }

  /** Downsampling by `rate` at `phase`: keep samples `phase`, `phase + rate`, ... */
  function Downsampled(v: seq<real>, rate: nat, phase: nat): seq<real>
    requires 0 <= phase < rate
  {
    seq(|v| / rate, i requires 0 <= i < |v| / rate =>
      if phase + i * rate < |v| then v[phase + i * rate] else 0.0)
  }

  /** The kept sample of a downsampled vector lies inside the vector. */
  lemma DownsampleIndex(n: nat, rate: nat, phase: nat, i: nat)
    requires 0 <= phase < rate && i < n / rate
    ensures phase + i * rate < n
  {
    MulLeq(i + 1, n / rate, rate);
  }

  /** Upsampled samples sit exactly at the slots `i * rate + phase`. */
  lemma UpsampledAt(v: seq<real>, rate: nat, phase: nat, i: nat)
    requires 0 <= phase < rate && i < |v|
    ensures i * rate + phase < |Upsampled(v, rate, phase)|
    ensures Upsampled(v, rate, phase)[i * rate + phase] == v[i]
  {
    MulLeq(i + 1, |v|, rate);
    assert (i + 1) * rate == i * rate + rate;
    DivModUnique(i * rate + phase, rate, i, phase);
  }

  /** Downsampling at the same rate and phase undoes upsampling. */
  lemma DownsampleUndoesUpsample(v: seq<real>, rate: nat, phase: nat)
    requires 0 <= phase < rate
    ensures Downsampled(Upsampled(v, rate, phase), rate, phase) == v
  {
    var u := Upsampled(v, rate, phase);
    MulMod(rate, |v|);
    assert |v| * rate == rate * |v|;
    forall i | 0 <= i < |v|
      ensures Downsampled(u, rate, phase)[i] == v[i]
    {
      UpsampledAt(v, rate, phase, i);
    }
  }

  /** Sum of all samples. */
  function Sum(s: seq<real>): real
  {
    if |s| == 0 then 0.0 else Sum(s[..|s| - 1]) + s[|s| - 1]
  }

  /** Running sum starting from `init`: entry `i` is `init` plus the first `i + 1` samples. */
  function CumSum(v: seq<real>, init: real): seq<real>
  {
    seq(|v|, i requires 0 <= i < |v| => init + Sum(v[..i + 1]))
  }

  /** First difference against `prev`, the sample that came before the vector. */
  function DiffFrom(v: seq<real>, prev: real): seq<real>
  {
    seq(|v|, i requires 0 <= i < |v| => v[i] - (if i == 0 then prev else v[i - 1]))
  }

  /** First difference within the vector: one sample shorter. */
  function Diffs(v: seq<real>): seq<real>
    requires |v| > 0
  {
    seq(|v| - 1, i requires 0 <= i < |v| - 1 => v[i + 1] - v[i])
  }

  /** Differencing against the same start value undoes the running sum. */
  lemma DiffUndoesCumSum(v: seq<real>, init: real)
    ensures DiffFrom(CumSum(v, init), init) == v
  {
    forall i | 0 <= i < |v|
      ensures DiffFrom(CumSum(v, init), init)[i] == v[i]
    {
      assert v[..i + 1][..i] == v[..i];
      assert Sum(v[..i + 1]) == Sum(v[..i]) + v[i];
      if i == 0 {
        assert Sum(v[..i]) == 0.0;
      }
    }
  }

  /** The first `k` first differences telescope to the `k`th sample less `prev`. */
  lemma {:induction false} SumOfDiffs(v: seq<real>, prev: real, k: nat)
    requires k <= |v|
    ensures Sum(DiffFrom(v, prev)[..k]) == if k == 0 then 0.0 else v[k - 1] - prev
  {
    if k > 0 {
      assert DiffFrom(v, prev)[..k][..k - 1] == DiffFrom(v, prev)[..k - 1];
      SumOfDiffs(v, prev, k - 1);
    }
  }

  /** The running sum from `prev` undoes differencing against `prev`. */
  lemma CumSumUndoesDiff(v: seq<real>, prev: real)
    ensures CumSum(DiffFrom(v, prev), prev) == v
  {
    forall i | 0 <= i < |v|
      ensures CumSum(DiffFrom(v, prev), prev)[i] == v[i]
    {
      SumOfDiffs(v, prev, i + 1);
    }
  }

  /** The in-vector difference is the difference against the first sample, without its leading zero. */
  lemma DiffsIsDiffFrom(v: seq<real>)
    requires |v| > 0
    ensures Diffs(v) == DiffFrom(v, v[0])[1..]
  {
  }

  /** The last running sum is the start value plus the sum of the whole vector. */
  lemma CumSumLast(v: seq<real>, init: real)
    requires |v| > 0
    ensures CumSum(v, init)[|v| - 1] == init + Sum(v)
  {
    assert v[..|v|] == v;
  }

  /** A sample limited to `[-val, val]`: `std::min` with `val`, then `std::max` with `-val`. */
  function Clamp(x: real, val: real): real
  {
    var upper := if val < x then val else x;
    if upper < -val then -val else upper
  }

  function Saturated(v: seq<real>, val: real): seq<real>
  {
    seq(|v|, i requires 0 <= i < |v| => Clamp(v[i], val))
  }

  /**
   * For a non-negative limit, saturated samples lie within the limit, samples
   * already within it are kept, and saturating again changes nothing.
   */
  lemma SaturatedBounds(v: seq<real>, val: real)
    requires val >= 0.0
    ensures forall i :: 0 <= i < |v| ==> -val <= Saturated(v, val)[i] <= val
    ensures forall i :: 0 <= i < |v| && -val <= v[i] <= val ==> Saturated(v, val)[i] == v[i]
    ensures forall i :: 0 <= i < |v| && v[i] > val ==> Saturated(v, val)[i] == val
    ensures forall i :: 0 <= i < |v| && v[i] < -val ==> Saturated(v, val)[i] == -val
    ensures Saturated(Saturated(v, val), val) == Saturated(v, val)
  {
  }

  predicate SortedSeq(s: seq<real>)
  {
    forall i, j :: 0 <= i <= j < |s| ==> s[i] <= s[j]
  }

  /** Insert `x` into a sorted sequence before the first larger element. */
  function Insert(x: real, s: seq<real>): (r: seq<real>)
    ensures |r| == |s| + 1 && multiset(r) == multiset(s) + multiset{x}
  {
    if |s| == 0 then [x]
    else if x <= s[0] then [x] + s
    else assert s == [s[0]] + s[1..]; [s[0]] + Insert(x, s[1..])
  }

  /** `std::sort` on the scratch copy, as an insertion sort: a permutation of the input. */
  function SortSeq(s: seq<real>): (r: seq<real>)
    ensures |r| == |s| && multiset(r) == multiset(s)
  {
    if |s| == 0 then []
    else assert s == [s[0]] + s[1..]; Insert(s[0], SortSeq(s[1..]))
  }

  /** Every element of the inserted sequence is `x` or an element of `s`. */
  lemma InsertFrom(x: real, s: seq<real>, k: nat)
    requires k < |Insert(x, s)|
    ensures Insert(x, s)[k] == x || Insert(x, s)[k] in s
  {
    assert Insert(x, s)[k] in multiset(s) + multiset{x};
  }

  lemma {:induction false} InsertSorted(x: real, s: seq<real>)
    requires SortedSeq(s)
    ensures SortedSeq(Insert(x, s))
  {
    if |s| > 0 && x > s[0] {
      var t := s[1..];
      InsertSorted(x, t);
      var r := Insert(x, t);
      forall k | 0 <= k < |r|
        ensures s[0] <= r[k]
      {
        InsertFrom(x, t, k);
      }
      assert Insert(x, s) == [s[0]] + r;
    }
  }

  /** The sorted copy is in ascending order. */
  lemma {:induction false} SortSeqSorted(s: seq<real>)
    ensures SortedSeq(SortSeq(s))
  {
    if |s| > 0 {
      SortSeqSorted(s[1..]);
      InsertSorted(s[0], SortSeq(s[1..]));
    }
  }

  /** The middle of a sorted sequence: the middle sample, or the mean of the two middle samples. */
  function Middle(sorted: seq<real>): real
    requires |sorted| > 0
  {
    var half := |sorted| / 2;
    if |sorted| % 2 == 1 then sorted[half] else (sorted[half] + sorted[half - 1]) / 2.0
  }

  /** The first and last entries of the sorted copy are the smallest and the largest sample. */
  lemma SortedEnds(v: seq<real>)
    requires |v| > 0
    ensures forall i :: 0 <= i < |v| ==> SortSeq(v)[0] <= v[i] <= SortSeq(v)[|v| - 1]
    ensures SortSeq(v)[0] in v && SortSeq(v)[|v| - 1] in v
  {
    var s := SortSeq(v);
    SortSeqSorted(v);
    forall i | 0 <= i < |v|
      ensures s[0] <= v[i] <= s[|v| - 1]
    {
      assert v[i] in multiset(v);
      assert v[i] in multiset(s);
      var j :| 0 <= j < |s| && s[j] == v[i];
    }
    assert s[0] in multiset(v);
    assert s[|v| - 1] in multiset(v);
  }

  /** The median lies between the smallest and the largest sample. */
  lemma MedianBounds(v: seq<real>)
    requires |v| > 0
    ensures forall i :: 0 <= i < |v| ==> SortSeq(v)[0] <= v[i] <= SortSeq(v)[|v| - 1]
    ensures exists i :: 0 <= i < |v| && v[i] <= Middle(SortSeq(v))
    ensures exists i :: 0 <= i < |v| && Middle(SortSeq(v)) <= v[i]
  {
    var s := SortSeq(v);
    SortedEnds(v);
    SortSeqSorted(v);
    var lo :| 0 <= lo < |v| && v[lo] == s[0];
    var hi :| 0 <= hi < |v| && v[hi] == s[|v| - 1];
    assert v[lo] <= Middle(s) <= v[hi];
  }

  /** Indices of the non-zero samples, ascending. */
  predicate IsNonZeroIndexList(v: seq<real>, list: seq<nat>)
  {
    (forall k :: 0 <= k < |list| ==> list[k] < |v| && v[list[k]] != 0.0)
    && (forall k, l :: 0 <= k < l < |list| ==> list[k] < list[l])
    && (forall i :: 0 <= i < |v| && v[i] != 0.0 ==> i in list)
  }

  // ---------------------------------------------------------------------
  // Loop states of upsample and downsample
  // ---------------------------------------------------------------------

  /**
   * What slot `x` of the upsampling buffer holds once every sample after
   * `from` has been moved: samples up to `from` are still in place, moved
   * samples are at their slots, and everything else is zero.
   */
  function UpState(v: seq<real>, rate: nat, phase: nat, from: int, x: nat): real
    requires 0 <= phase < rate
  {
    if x <= from && x < |v| then v[x]
    else if x % rate == phase && from < x / rate < |v| then v[x / rate]
    else 0.0
  }

  predicate UpInvariant(buf: seq<real>, v: seq<real>, rate: nat, phase: nat, from: int)
    requires 0 <= phase < rate
  {
    |buf| == |v| * rate && forall x :: 0 <= x < |buf| ==> buf[x] == UpState(v, rate, phase, from, x)
  }

  /** The buffer resized with zeros is the state before any move; the first target is the last slot of phase `phase`. */
  lemma UpInit(v: seq<real>, rate: nat, phase: nat)
    requires 0 <= phase < rate
    ensures UpInvariant(Resized(v, |v| * rate, 0.0), v, rate, phase, |v| - 1)
    ensures |v| * rate - (rate - phase) == (|v| - 1) * rate + phase
  {
  }

  /** How one move changes slot `x`: the vacated slot becomes zero and the target slot takes the sample. */
  lemma UpStateStep(v: seq<real>, rate: nat, phase: nat, from: int, x: nat)
    requires 0 <= phase < rate && rate > 1 && 0 <= from < |v| && x < |v| * rate
    requires from < from * rate + phase
    ensures UpState(v, rate, phase, from - 1, x)
      == if x == from then 0.0
         else if x == from * rate + phase then v[from]
         else UpState(v, rate, phase, from, x)
  {
    Split(x, rate, |v|);
    DivModUnique(from * rate + phase, rate, from, phase);
    if x % rate == phase && x / rate == from {
      assert x == from * rate + phase;
    }
    if x == from && x > 0 {
      MulLeq(2, rate, x / rate);
    }
  }

  /** One pass of the upsampling loop: move sample `from` to its slot and zero where it was. */
  lemma UpStep(buf: seq<real>, v: seq<real>, rate: nat, phase: nat, from: int)
    requires 0 <= phase < rate && rate > 1
    requires UpInvariant(buf, v, rate, phase, from) && from < |v|
    requires from * rate + phase > 0
    ensures 0 <= from < from * rate + phase < |buf| && buf[from] == v[from]
    ensures UpInvariant(buf[from * rate + phase := buf[from]][from := 0.0], v, rate, phase, from - 1)
  {
    var to := from * rate + phase;
    if from < 0 {
      MulLeq(from, -1, rate);
      assert false;
    }
    MulLeq(from + 1, |v|, rate);
    assert (from + 1) * rate == to - phase + rate;
    MulLeq(2, rate, from);
    var nb := buf[to := buf[from]][from := 0.0];
    forall x | 0 <= x < |nb|
      ensures nb[x] == UpState(v, rate, phase, from - 1, x)
    {
      UpStateStep(v, rate, phase, from, x);
    }
  }

  /** When the target cursor reaches zero the buffer is the upsampled vector. */
  lemma UpDone(buf: seq<real>, v: seq<real>, rate: nat, phase: nat, from: int)
    requires 0 <= phase < rate && from >= -1
    requires UpInvariant(buf, v, rate, phase, from) && from * rate + phase <= 0
    ensures buf == Upsampled(v, rate, phase)
  {
    if from > 0 {
      MulLeq(1, from, rate);
    }
    forall x | 0 <= x < |buf|
      ensures buf[x] == Upsampled(v, rate, phase)[x]
    {
      Split(x, rate, |v|);
    }
  }

  /** Once every kept sample is copied, trimming the buffer leaves the downsampled vector. */
  lemma DownDone(buf: seq<real>, v: seq<real>, rate: nat, phase: nat)
    requires 0 <= phase < rate && DownInvariant(buf, v, rate, phase, |v| / rate)
    ensures Resized(buf, |v| / rate, 0.0) == Downsampled(v, rate, phase)
  {
    assert Resized(buf, |v| / rate, 0.0) == buf[..|v| / rate];
  }

  /** Upsampling by one is the identity. */
  lemma UpsampleByOne(v: seq<real>)
    ensures Upsampled(v, 1, 0) == v
  {
  }

  /** Downsampling by one is the identity. */
  lemma DownsampleByOne(v: seq<real>)
    ensures Downsampled(v, 1, 0) == v
  {
  }

  /**
   * The downsampling buffer after `to` copies: the kept samples lead, and
   * the rest of the buffer, which the copies have not reached, is untouched.
   */
  predicate DownInvariant(buf: seq<real>, v: seq<real>, rate: nat, phase: nat, to: nat)
    requires 0 <= phase < rate
  {
    |buf| == |v| && to <= |v| && to <= |v| / rate
    && buf[..to] == Downsampled(v, rate, phase)[..to]
    && buf[to..] == v[to..]
  }

  /** One pass of the downsampling loop: copy sample `phase + to * rate` down to `to`. */
  lemma DownStep(buf: seq<real>, v: seq<real>, rate: nat, phase: nat, to: nat)
    requires 0 <= phase < rate && rate > 1
    requires DownInvariant(buf, v, rate, phase, to) && to < |v| / rate
    ensures to <= phase + to * rate < |buf| && buf[phase + to * rate] == v[phase + to * rate]
    ensures DownInvariant(buf[to := buf[phase + to * rate]], v, rate, phase, to + 1)
    ensures phase + (to + 1) * rate == phase + to * rate + rate
  {
    DownsampleIndex(|v|, rate, phase, to);
    MulLeq(1, rate, to);
    assert buf[phase + to * rate] == buf[to..][phase + to * rate - to];
  }

  // ---------------------------------------------------------------------
  // The vector object
  // ---------------------------------------------------------------------

  /** The buffer that `median` sorts in; several vectors may share one. */
  class Scratch {
    var items: seq<real>

    constructor ()
      ensures items == []
    {
      items := [];
    }
  }

  class Vector {
    var vec: seq<real>
    var rowVector: bool
    var scratchBuf: Scratch

    /** A vector of `len` zeros. */
    constructor (len: nat, rowVec: bool, scratch: Scratch?)
      ensures vec == Fill(len, 0.0) && rowVector == rowVec
      ensures scratch == null ==> fresh(scratchBuf) && scratchBuf.items == []
      ensures scratch != null ==> scratchBuf == scratch
    {
      vec := Resized([], len, 0.0);
      rowVector := rowVec;
      scratchBuf := new Scratch();
      new;
      InitializeScratchBuf(scratch);
    }

    /** A vector holding a copy of `data`. */
    constructor FromData(data: seq<real>, rowVec: bool, scratch: Scratch?)
      ensures vec == data && rowVector == rowVec
      ensures scratch == null ==> fresh(scratchBuf) && scratchBuf.items == []
      ensures scratch != null ==> scratchBuf == scratch
    {
      vec := data;
      rowVector := rowVec;
      scratchBuf := new Scratch();
      new;
      InitializeScratchBuf(scratch);
    }

    /** Use the given scratch buffer, or a new empty one when none is given. */
    method InitializeScratchBuf(scratch: Scratch?)
      modifies this
      ensures vec == old(vec) && rowVector == old(rowVector)
      ensures scratch == null ==> fresh(scratchBuf) && scratchBuf.items == []
      ensures scratch != null ==> scratchBuf == scratch
    {
      if scratch == null {
        scratchBuf := new Scratch();
      } else {
        scratchBuf := scratch;
      }
    }

    /** Copy the samples into the scratch buffer, resizing it to fit. */
    method CopyToScratchBuf()
      modifies scratchBuf
      ensures scratchBuf.items == vec
    {
      scratchBuf.items := Resized(scratchBuf.items, |vec|, 0.0);
      var index := 0;
      while index < |vec|
        invariant 0 <= index <= |vec| && |scratchBuf.items| == |vec|
        invariant scratchBuf.items[..index] == vec[..index]
      {
        scratchBuf.items := scratchBuf.items[index := vec[index]];
        index := index + 1;
      }
    }

    /** `+=` with another vector of the same length; `rhs` may be this vector itself. */
    method AddVector(rhs: Vector)
      requires |vec| == |rhs.vec|
      modifies this
      ensures vec == Plus(old(vec), old(rhs.vec))
      ensures rowVector == old(rowVector) && scratchBuf == old(scratchBuf)
    {
      ghost var a, b := vec, rhs.vec;
      var index := 0;
      while index < |vec|
        invariant 0 <= index <= |vec| == |a| && |rhs.vec| == |a|
        invariant vec[..index] == Plus(a, b)[..index] && vec[index..] == a[index..]
        invariant rhs.vec[index..] == b[index..]
        invariant rowVector == old(rowVector) && scratchBuf == old(scratchBuf)
      {
        vec := vec[index := vec[index] + rhs.vec[index]];
        index := index + 1;
      }
    }

    /** `+=` with a scalar: the scalar is added to every sample. */
    method AddScalar(rhs: real)
      modifies this
      ensures vec == Plus(old(vec), Fill(|old(vec)|, rhs))
      ensures rowVector == old(rowVector) && scratchBuf == old(scratchBuf)
    {
      ghost var a := vec;
      var index := 0;
      while index < |vec|
        invariant 0 <= index <= |vec| == |a|
        invariant vec[..index] == Plus(a, Fill(|a|, rhs))[..index] && vec[index..] == a[index..]
        invariant rowVector == old(rowVector) && scratchBuf == old(scratchBuf)
      {
        vec := vec[index := vec[index] + rhs];
        index := index + 1;
      }
    }

    /** `-=` with another vector of the same length; `rhs` may be this vector itself. */
    method SubVector(rhs: Vector)
      requires |vec| == |rhs.vec|
      modifies this
      ensures vec == Minus(old(vec), old(rhs.vec))
      ensures rowVector == old(rowVector) && scratchBuf == old(scratchBuf)
    {
      ghost var a, b := vec, rhs.vec;
      var index := 0;
      while index < |vec|
        invariant 0 <= index <= |vec| == |a| && |rhs.vec| == |a|
        invariant vec[..index] == Minus(a, b)[..index] && vec[index..] == a[index..]
        invariant rhs.vec[index..] == b[index..]
        invariant rowVector == old(rowVector) && scratchBuf == old(scratchBuf)
      {
        vec := vec[index := vec[index] - rhs.vec[index]];
        index := index + 1;
      }
    }

    /** `-=` with a scalar: the scalar is taken from every sample. */
    method SubScalar(rhs: real)
      modifies this
      ensures vec == Minus(old(vec), Fill(|old(vec)|, rhs))
      ensures rowVector == old(rowVector) && scratchBuf == old(scratchBuf)
    {
      ghost var a := vec;
      var index := 0;
      while index < |vec|
        invariant 0 <= index <= |vec| == |a|
        invariant vec[..index] == Minus(a, Fill(|a|, rhs))[..index] && vec[index..] == a[index..]
        invariant rowVector == old(rowVector) && scratchBuf == old(scratchBuf)
      {
        vec := vec[index := vec[index] - rhs];
        index := index + 1;
      }
    }

    /** `*=` with another vector of the same length; `rhs` may be this vector itself. */
    method MulVector(rhs: Vector)
      requires |vec| == |rhs.vec|
      modifies this
      ensures vec == Times(old(vec), old(rhs.vec))
      ensures rowVector == old(rowVector) && scratchBuf == old(scratchBuf)
    {
      ghost var a, b := vec, rhs.vec;
      var index := 0;
      while index < |vec|
        invariant 0 <= index <= |vec| == |a| && |rhs.vec| == |a|
        invariant vec[..index] == Times(a, b)[..index] && vec[index..] == a[index..]
        invariant rhs.vec[index..] == b[index..]
        invariant rowVector == old(rowVector) && scratchBuf == old(scratchBuf)
      {
        assert Times(a, b)[index] == vec[index] * rhs.vec[index];
        vec := vec[index := vec[index] * rhs.vec[index]];
        index := index + 1;
      }
    }

    /** `*=` with a scalar: every sample is scaled. */
    method MulScalar(rhs: real)
      modifies this
      ensures vec == Times(old(vec), Fill(|old(vec)|, rhs))
      ensures rowVector == old(rowVector) && scratchBuf == old(scratchBuf)
    {
      ghost var a := vec;
      var index := 0;
      while index < |vec|
        invariant 0 <= index <= |vec| == |a|
        invariant vec[..index] == Times(a, Fill(|a|, rhs))[..index] && vec[index..] == a[index..]
        invariant rowVector == old(rowVector) && scratchBuf == old(scratchBuf)
      {
        assert Times(a, Fill(|a|, rhs))[index] == vec[index] * rhs;
        vec := vec[index := vec[index] * rhs];
        index := index + 1;
      }
    }

    /** Indices of the non-zero samples, in ascending order. */
    method Find() returns (list: seq<nat>)
      ensures IsNonZeroIndexList(vec, list)
    {
      list := [];
      var index := 0;
      while index < |vec|
        invariant 0 <= index <= |vec|
        invariant forall k :: 0 <= k < |list| ==> list[k] < index && vec[list[k]] != 0.0
        invariant forall k, l :: 0 <= k < l < |list| ==> list[k] < list[l]
        invariant forall i :: 0 <= i < index && vec[i] != 0.0 ==> i in list
      {
        if vec[index] != 0.0 {
          list := list + [index];
        }
        index := index + 1;
      }
    }

    /** The largest sample and the index of its first occurrence. */
    method Max() returns (maxVal: real, maxLoc: nat)
      requires |vec| > 0
      ensures maxLoc < |vec| && vec[maxLoc] == maxVal
      ensures forall i :: 0 <= i < |vec| ==> vec[i] <= maxVal
      ensures forall i :: 0 <= i < maxLoc ==> vec[i] < maxVal
    {
      maxVal, maxLoc := vec[0], 0;
      var index := 1;
      while index < |vec|
        invariant 1 <= index <= |vec| && maxLoc < index && vec[maxLoc] == maxVal
        invariant forall i :: 0 <= i < index ==> vec[i] <= maxVal
        invariant forall i :: 0 <= i < maxLoc ==> vec[i] < maxVal
      {
        if maxVal < vec[index] {
          maxVal, maxLoc := vec[index], index;
        }
        index := index + 1;
      }
    }

    /** The smallest sample and the index of its first occurrence. */
    method Min() returns (minVal: real, minLoc: nat)
      requires |vec| > 0
      ensures minLoc < |vec| && vec[minLoc] == minVal
      ensures forall i :: 0 <= i < |vec| ==> minVal <= vec[i]
      ensures forall i :: 0 <= i < minLoc ==> minVal < vec[i]
    {
      minVal, minLoc := vec[0], 0;
      var index := 1;
      while index < |vec|
        invariant 1 <= index <= |vec| && minLoc < index && vec[minLoc] == minVal
        invariant forall i :: 0 <= i < index ==> minVal <= vec[i]
        invariant forall i :: 0 <= i < minLoc ==> minVal < vec[i]
      {
        if minVal > vec[index] {
          minVal, minLoc := vec[index], index;
        }
        index := index + 1;
      }
    }

    /** The median: the middle of a sorted copy made in the scratch buffer. */
    method Median() returns (m: real)
      requires |vec| > 0
      modifies scratchBuf
      ensures scratchBuf.items == SortSeq(vec) && SortedSeq(scratchBuf.items)
      ensures m == Middle(SortSeq(vec))
    {
      CopyToScratchBuf();
      scratchBuf.items := SortSeq(scratchBuf.items);
      SortSeqSorted(vec);
      var n := |vec|;
      if n % 2 == 1 {
        m := scratchBuf.items[n / 2];
      } else {
        var topHalfIndex := n / 2;
        m := (scratchBuf.items[topHalfIndex] + scratchBuf.items[topHalfIndex - 1]) / 2.0;
      }
    }

    /** Limit every sample to `[-val, val]`. */
    method Saturate(val: real)
      requires val >= 0.0
      modifies this
      ensures vec == Saturated(old(vec), val)
      ensures rowVector == old(rowVector) && scratchBuf == old(scratchBuf)
    {
      ghost var a := vec;
      var index := 0;
      while index < |vec|
        invariant 0 <= index <= |vec| == |a|
        invariant vec[..index] == Saturated(a, val)[..index] && vec[index..] == a[index..]
        invariant rowVector == old(rowVector) && scratchBuf == old(scratchBuf)
      {
        vec := vec[index := if val < vec[index] then val else vec[index]];
        vec := vec[index := if vec[index] < -val then -val else vec[index]];
        index := index + 1;
      }
    }

    /** Circular shift left by `numToShift` places; negative values shift right. */
    method VectorRotate(numToShift: int)
      modifies this
      ensures vec == Rotated(old(vec), numToShift)
      ensures rowVector == old(rowVector) && scratchBuf == old(scratchBuf)
    {
      var n := |vec|;
      if n <= 1 {
        RotateShort(vec, numToShift);
        return;
      }
      ghost var v := vec;
      var shift := numToShift;
      while shift >= n
        invariant shift % n == numToShift % n && vec == v
        invariant rowVector == old(rowVector) && scratchBuf == old(scratchBuf)
        decreases shift
      {
        ModShift(shift - n, n);
        shift := shift - n;
      }
      while shift < 0
        invariant shift % n == numToShift % n && shift < n && vec == v
        invariant rowVector == old(rowVector) && scratchBuf == old(scratchBuf)
        decreases -shift
      {
        ModShift(shift, n);
        shift := shift + n;
      }
      RotateLeftIsRotated(v, shift, numToShift);
      vec := RotateLeft(vec, shift);
    }

    /** Reverse the order of the samples. */
    method Reverse()
      modifies this
      ensures vec == Reversed(old(vec))
      ensures rowVector == old(rowVector) && scratchBuf == old(scratchBuf)
    {
      vec := Reversed(vec);
    }

    /** Truncate to `len` samples, or extend with copies of `val`. */
    method Resize(len: nat, val: real)
      modifies this
      ensures vec == Resized(old(vec), len, val)
      ensures rowVector == old(rowVector) && scratchBuf == old(scratchBuf)
    {
      vec := Resized(vec, len, val);
    }

    /** Extend by `len` copies of `val`. */
    method Pad(len: nat, val: real)
      modifies this
      ensures vec == Resized(old(vec), |old(vec)| + len, val)
      ensures rowVector == old(rowVector) && scratchBuf == old(scratchBuf)
    {
      vec := Resized(vec, |vec| + len, val);
    }

    /** Insert `rate - 1` zeros around each sample, `phase` of them before it. */
    method Upsample(rate: int, phase: int)
      requires rate > 0 && 0 <= phase < rate
      modifies this
      ensures vec == Upsampled(old(vec), rate, phase)
      ensures rowVector == old(rowVector) && scratchBuf == old(scratchBuf)
    {
      if rate == 1 {
        UpsampleByOne(vec);
        return;
      }
      ghost var v := vec;
      var originalSize := |vec|;
      UpInit(v, rate, phase);
      vec := Resized(vec, originalSize * rate, 0.0);
      var fromIndex := originalSize - 1;
      var toIndex := |vec| - (rate - phase);
      while toIndex > 0
        invariant fromIndex >= -1 && fromIndex < originalSize && toIndex == fromIndex * rate + phase
        invariant UpInvariant(vec, v, rate, phase, fromIndex)
        invariant rowVector == old(rowVector) && scratchBuf == old(scratchBuf)
        decreases toIndex
      {
        UpStep(vec, v, rate, phase, fromIndex);
        vec := vec[toIndex := vec[fromIndex]];
        vec := vec[fromIndex := 0.0];
        fromIndex, toIndex := fromIndex - 1, toIndex - rate;
      }
      UpDone(vec, v, rate, phase, fromIndex);
    }

    /** Keep one sample in every `rate`, starting at `phase`. */
    method Downsample(rate: int, phase: int)
      requires rate > 0 && 0 <= phase < rate
      modifies this
      ensures vec == Downsampled(old(vec), rate, phase)
      ensures rowVector == old(rowVector) && scratchBuf == old(scratchBuf)
    {
      if rate == 1 {
        DownsampleByOne(vec);
        return;
      }
      ghost var v := vec;
      var newSize := |vec| / rate;
      var fromIndex, toIndex := phase, 0;
      while toIndex < newSize
        invariant fromIndex == phase + toIndex * rate
        invariant DownInvariant(vec, v, rate, phase, toIndex)
        invariant rowVector == old(rowVector) && scratchBuf == old(scratchBuf)
      {
        DownStep(vec, v, rate, phase, toIndex);
        vec := vec[toIndex := vec[fromIndex]];
        fromIndex, toIndex := fromIndex + rate, toIndex + 1;
      }
      DownDone(vec, v, rate, phase);
      vec := Resized(vec, newSize, 0.0);
    }

    /** Replace the samples by their running sum, starting from `initialVal`. */
    method Cumsum(initialVal: real)
      modifies this
      ensures vec == CumSum(old(vec), initialVal)
      ensures rowVector == old(rowVector) && scratchBuf == old(scratchBuf)
    {
      ghost var v := vec;
      var sum := initialVal;
      var i := 0;
      while i < |vec|
        invariant 0 <= i <= |vec| == |v|
        invariant sum == initialVal + Sum(v[..i])
        invariant vec[..i] == CumSum(v, initialVal)[..i] && vec[i..] == v[i..]
        invariant rowVector == old(rowVector) && scratchBuf == old(scratchBuf)
      {
        assert v[..i + 1][..i] == v[..i];
        sum := sum + vec[i];
        vec := vec[i := sum];
        i := i + 1;
      }
    }

    /**
     * First difference.  Without a previous sample the vector loses its first
     * entry; with one, the length is kept and the last sample is handed back
     * as the previous sample of the next block.
     */
    method Diff(previousVal: Option<real>) returns (nextPreviousVal: Option<real>)
      requires previousVal.None? ==> |vec| > 1
      requires previousVal.Some? ==> |vec| > 0
      modifies this
      ensures previousVal.None? ==> vec == Diffs(old(vec)) && nextPreviousVal == None
      ensures previousVal.Some? ==>
        vec == DiffFrom(old(vec), previousVal.value)
        && nextPreviousVal == Some(old(vec)[|old(vec)| - 1])
      ensures rowVector == old(rowVector) && scratchBuf == old(scratchBuf)
    {
      ghost var v := vec;
      if previousVal.None? {
        var i := 0;
        while i < |vec| - 1
          invariant 0 <= i <= |vec| - 1 && |vec| == |v|
          invariant vec[..i] == Diffs(v)[..i] && vec[i..] == v[i..]
          invariant rowVector == old(rowVector) && scratchBuf == old(scratchBuf)
        {
          vec := vec[i := vec[i + 1] - vec[i]];
          i := i + 1;
        }
        Resize(|vec| - 1, 0.0);
        nextPreviousVal := None;
      } else {
        var next := vec[|vec| - 1];
        var i := |vec| - 1;
        while i > 0
          invariant 0 <= i < |vec| == |v|
          invariant vec[..i + 1] == v[..i + 1]
          invariant vec[i + 1..] == DiffFrom(v, previousVal.value)[i + 1..]
          invariant rowVector == old(rowVector) && scratchBuf == old(scratchBuf)
        {
          vec := vec[i := vec[i] - vec[i - 1]];
          i := i - 1;
        }
        vec := vec[0 := vec[0] - previousVal.value];
        nextPreviousVal := Some(next);
      }
    }
  }

  /** Reverse a row vector; a column vector is left alone. */
  method Fliplr(v: Vector)
    modifies v
    ensures v.vec == if old(v.rowVector) then Reversed(old(v.vec)) else old(v.vec)
    ensures v.rowVector == old(v.rowVector) && v.scratchBuf == old(v.scratchBuf)
  {
    if v.rowVector {
      v.Reverse();
    }
  }

  /** Reverse a column vector; a row vector is left alone. */
  method Flipud(v: Vector)
    modifies v
    ensures v.vec == if !old(v.rowVector) then Reversed(old(v.vec)) else old(v.vec)
    ensures v.rowVector == old(v.rowVector) && v.scratchBuf == old(v.scratchBuf)
  {
    if v.rowVector == false {
      v.Reverse();
    }
  }
}
