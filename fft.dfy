/**
  * The KISS FFT engine: a plan fixed at construction (twiddle factors and
  * the stage radices), a recursive decimation-in-time driver, and the
  * radix-2, 3, 4, 5 and generic butterflies that recombine each stage.
  */
module Fft {

  import opened Complex
  import opened Arith
  import opened Factorization
  import opened Columns
  import opened Optional

  // ---------------------------------------------------------------------
  // One column of a butterfly, as the source computes it
  // ---------------------------------------------------------------------

  /** Radix 2 on column x with twiddle w. */
  function Bfly2Column(x: seq<Cpx>, w: Cpx): (y: seq<Cpx>)
    ensures |y| == 2
  {
    var t := Mul(At(x, 1), w);
    [Add(At(x, 0), t), Sub(At(x, 0), t)]
  }

  /** Radix 3 on column x with twiddles w1, w2 and the third root of unity epi3. */
  function Bfly3Column(x: seq<Cpx>, w1: Cpx, w2: Cpx, epi3: Cpx): (y: seq<Cpx>)
    ensures |y| == 3
  {
    var s1 := Mul(At(x, 1), w1);
    var s2 := Mul(At(x, 2), w2);
    var s3 := Add(s1, s2);
    var s0 := Scale(Sub(s1, s2), epi3.im);
    var fm := Sub(At(x, 0), Scale(s3, 0.5));
    [Add(At(x, 0), s3), Add(fm, Cpx(-s0.im, s0.re)), Cpx(fm.re + s0.im, fm.im - s0.re)]
  }

  /** Radix 4 on column x with twiddles w1, w2, w3; nii is -1 for the inverse transform, else 1. */
  function Bfly4Column(x: seq<Cpx>, w1: Cpx, w2: Cpx, w3: Cpx, nii: real): (y: seq<Cpx>)
    ensures |y| == 4
  {
    var s0 := Mul(At(x, 1), w1);
    var s1 := Mul(At(x, 2), w2);
    var s2 := Mul(At(x, 3), w3);
    var s5 := Sub(At(x, 0), s1);
    var f0 := Add(At(x, 0), s1);
    var s3 := Add(s0, s2);
    var d := Sub(s0, s2);
    var s4 := Cpx(d.im * nii, -d.re * nii);
    [Add(f0, s3), Add(s5, s4), Sub(f0, s3), Sub(s5, s4)]
  }

  /** Radix 5 on column x with twiddles w1 .. w4 and the fifth roots of unity ya, yb. */
  function Bfly5Column(x: seq<Cpx>, w1: Cpx, w2: Cpx, w3: Cpx, w4: Cpx, ya: Cpx, yb: Cpx): (y: seq<Cpx>)
    ensures |y| == 5
  {
    var s0 := At(x, 0);
    var s1 := Mul(At(x, 1), w1);
    var s2 := Mul(At(x, 2), w2);
    var s3 := Mul(At(x, 3), w3);
    var s4 := Mul(At(x, 4), w4);
    var s7 := Add(s1, s4);
    var s10 := Sub(s1, s4);
    var s8 := Add(s2, s3);
    var s9 := Sub(s2, s3);
    var s5 := Add(s0, Cpx(s7.re * ya.re + s8.re * yb.re, s7.im * ya.re + s8.im * yb.re));
    var s6 := Cpx(s10.im * ya.im + s9.im * yb.im, -s10.re * ya.im - s9.re * yb.im);
    var s11 := Add(s0, Cpx(s7.re * yb.re + s8.re * ya.re, s7.im * yb.re + s8.im * ya.re));
    var s12 := Cpx(-s10.im * yb.im + s9.im * ya.im, s10.re * yb.im - s9.re * ya.im);
    [Add(Add(s0, s7), s8), Sub(s5, s6), Add(s11, s12), Sub(s11, s12), Add(s5, s6)]
  }

  /** A fresh scratch vector of n zeros, as `std::vector<cpx_t>(n)` makes it. */
  function Zeros(n: nat): (z: seq<Cpx>)
    ensures |z| == n && forall i :: 0 <= i < n ==> z[i] == Zero
  {
    seq(n, _ => Zero)
  }

  /** The scratch buffer shared between transforms (`std::shared_ptr<std::vector<cpx_t>>`). */
  class ScratchBuffer {
    var items: seq<Cpx>

    constructor (n: nat)
      ensures items == Zeros(n)
    {
      items := Zeros(n);
    }

    /** `resize(n)`: keeps the first n items and pads with zeros. */
    method Resize(n: nat)
      modifies this
      ensures |items| == n
      ensures forall i :: 0 <= i < n ==> items[i] == if i < |old(items)| then old(items)[i] else Zero
    {
      if n <= |items| {
        items := items[..n];
      } else {
        items := items + Zeros(n - |items|);
      }
    }
  }

  /** `fstride * p * m == nfft` keeps every twiddle index of a stage below nfft. */
  lemma TwiddleIndex(u: nat, c: nat, fs: nat, p: nat, m: nat, nfft: nat)
    requires u < m && c < p && fs * p * m == nfft && nfft > 0
    ensures u * fs < nfft && u * fs * c < nfft && fs * m * c < nfft
  {
    FactorsPositive(fs * p, m);
    FactorsPositive(fs, p);
    var a := fs * m;
    assert nfft == a * p;
    MulLt(u, m, fs);
    MulLt(c, p, a);
    MulLeq(1, p, a);
    if c > 0 {
      MulLt(u * fs, a, c);
    }
  }

  /** The twiddle indices a radix-p butterfly (p from 2 to 5) reads for column u < m are below nfft. */
  lemma StageTwiddles(p: nat, m: nat, fs: nat, u: nat, nfft: nat)
    requires 2 <= p <= 5 && u < m && fs * p * m == nfft > 0
    ensures u * fs < nfft
    ensures p >= 3 ==> u * fs * 2 < nfft && fs * m * 1 < nfft
    ensures p >= 4 ==> u * fs * 3 < nfft
    ensures p == 5 ==> u * fs * 4 < nfft && fs * m * 2 < nfft
  {
    TwiddleIndex(u, 1, fs, p, m, nfft);
    if p >= 3 {
      TwiddleIndex(u, 2, fs, p, m, nfft);
    }
    if p >= 4 {
      TwiddleIndex(u, 3, fs, p, m, nfft);
    }
    if p == 5 {
      TwiddleIndex(u, 4, fs, p, m, nfft);
    }
  }

  /** Slot k = u + q1 * m of a generic row: its step fs * k is below nfft, and the next row's slot is k + m. */
  lemma RowSlot(u: nat, q1: nat, m: nat, p: nat, fs: nat, nfft: nat)
    requires u < m && q1 < p && fs * p * m == nfft && nfft > 0
    ensures fs * (u + q1 * m) < nfft && u + q1 * m + m == u + (q1 + 1) * m
  {
    SlotInBlock(u, q1, m, p);
    TwiddleIndex(u + q1 * m, 0, fs, 1, p * m, nfft);
  }

  /** A sub-transform's input offset stays below its stride: inBase + j * fs < fs * p. */
  lemma SubOffset(inBase: nat, j: nat, fs: nat, p: nat)
    requires inBase < fs && j < p
    ensures inBase + j * fs < fs * p && inBase + j * fs + fs == inBase + (j + 1) * fs
  {
    MulLeq(j + 1, p, fs);
  }

  /** Sub-transform j of p writes the block j * m .. (j + 1) * m, inside the p * m outputs. */
  lemma SubBlock(j: nat, m: nat, p: nat)
    requires j < p
    ensures j * m + m <= p * m && j * m + m == (j + 1) * m
  {
    MulLeq(j + 1, p, m);
  }

  /** n blocks of m are (n - 1) blocks of m and one more. */
  lemma LengthStep(prev: int, n: nat, m: nat)
    requires n > 0 && prev == (n - 1) * m
    ensures prev + m == n * m
  {
  }

  /**
    * A call that keeps after[..outPos] and writes run at outPos extends the
    * blocks already at before[outBase..outPos] by run.
    */
  lemma BlockAppended(before: seq<Cpx>, after: seq<Cpx>, outBase: nat, outPos: nat, m: nat,
                      done: seq<Cpx>, run: seq<Cpx>, extended: seq<Cpx>)
    requires outBase <= outPos && outPos + m <= |after| && outPos <= |before|
    requires before[outBase..outPos] == done && after[..outPos] == before[..outPos]
    requires after[outPos..outPos + m] == run && extended == done + run
    ensures after[outBase..outPos + m] == extended
  {
    SliceAppend(after, before, outBase, outPos, outPos + m);
  }

  /** A stage with stride fs >= 1, p >= 2 and m >= 1 has a positive size, and its leaves read below nfft. */
  lemma StageSizes(fs: nat, p: nat, m: nat, nfft: nat)
    requires fs >= 1 && p >= 2 && m >= 1 && fs * p * m == nfft
    ensures nfft > 0 && fs * p <= nfft && p <= p * m
  {
    MulLeq(1, m, p);
    MulLeq(1, m, fs * p);
    MulLeq(1, fs, p);
  }

  /** The next stage's stride fs * p keeps `fstride * p * m == nfft`. */
  lemma StrideNext(fs: nat, p: nat, m: nat, r: nat, m1: nat, nfft: nat)
    requires fs * p * m == nfft && r * m1 == m
    ensures fs * p * r * m1 == nfft
  {
    MulAssoc(fs * p, r, m1);
  }

  /**
    * The leaf branch's do/while as written: a pass copies one sample with
    * the output cursor at offset k, the cursor then moves to k + 1, and the
    * loop goes on while that differs from p - 1 (`Fout_end - 1`); one more
    * copy follows the loop. The result is the number of passes made when
    * the loop stops, or None when it has not stopped within `bound` passes.
    */
  function LeafPassesAsWritten(p: nat, k: nat, bound: nat): (r: Option<nat>)
    decreases bound - k
  {
    if k >= bound then None
    else if k + 1 == p - 1 then Some(k + 1)
    else LeafPassesAsWritten(p, k + 1, bound)
  }

  /**
    * For p >= 2 the loop stops after p - 1 passes, so with the copy after
    * it the leaf writes exactly p samples.
    */
  lemma {:induction false} LeafLoopStops(p: nat, k: nat, bound: nat)
    requires p >= 2 && k < p - 1 && p - 1 <= bound
    ensures LeafPassesAsWritten(p, k, bound) == Some(p - 1)
    decreases bound - k
  {
    if k + 1 != p - 1 {
      LeafLoopStops(p, k + 1, bound);
    }
  }

  /**
    * For p == 1 (the only stage of a 1-point transform) the cursor after a
    * pass is never at offset 0 again, so the loop does not stop within any
    * number of passes and copies past the single output.
    */
  lemma {:induction false} LeafLoopNeverStops(k: nat, bound: nat)
    ensures LeafPassesAsWritten(1, k, bound) == None
    decreases bound - k
  {
    if k < bound {
      LeafLoopNeverStops(k + 1, bound);
    }
  }

  /** Real samples as complex numbers with imaginary part 0, as the real overload's leaf copy stores them. */
  function Lift(xs: seq<real>): (ys: seq<Cpx>)
    ensures |ys| == |xs| && forall i :: 0 <= i < |xs| ==> ys[i] == Cpx(xs[i], 0.0)
  {
    seq(|xs|, i requires 0 <= i < |xs| => FromReal(xs[i]))
  }

  class KissFft {
    const nfft: nat
    const inverse: bool
    const twiddles: seq<Cpx>
    const stageRadix: seq<nat>
    const stageRemainder: seq<nat>
    var scratchBuf: ScratchBuffer?

    /** The plan as the constructor leaves it. */
    predicate PlanOk() {
      && |twiddles| == nfft
      && stageRadix == Radices(Plan(nfft))
      && stageRemainder == Remainders(Plan(nfft))
    }

    /** The twiddle table holds entry i of `expi` at every index below nfft. */
    predicate TwiddlesFrom(expi: nat -> Cpx) {
      |twiddles| == nfft && forall i :: 0 <= i < nfft ==> twiddles[i] == expi(i)
    }

    /** A generic-radix stage finds a scratch buffer at least as long as the last radix. */
    predicate ScratchOk()
      reads this, scratchBuf
    {
      && |stageRadix| >= 1
      && (stageRadix[|stageRadix| - 1] > 5 ==> scratchBuf != null && |scratchBuf.items| >= stageRadix[|stageRadix| - 1])
    }

    predicate Valid()
      reads this, scratchBuf
    {
      PlanOk() && ScratchOk()
    }

    /**
      * The constructor: the twiddle table, the factorisation, and a scratch
      * buffer of the last radix p when p > 5 (a new one when none is given,
      * otherwise the given one resized to p). Twiddle i is exp(i * phinc)
      * with phinc = -2 * pi / nfft (+2 * pi / nfft for the inverse); that
      * value is the parameter expi, since the model has no transcendental
      * functions.
      */
    constructor (nfft: nat, inverse: bool, scratch: ScratchBuffer?, expi: nat -> Cpx)
      modifies scratch
      ensures this.nfft == nfft && this.inverse == inverse
      ensures TwiddlesFrom(expi) && Valid()
      ensures var p := stageRadix[|stageRadix| - 1];
              && (p <= 5 ==> scratchBuf == scratch)
              && (p > 5 && scratch == null ==> fresh(scratchBuf) && scratchBuf.items == Zeros(p))
              && (p > 5 && scratch != null ==> scratchBuf == scratch)
      ensures scratch != null ==> (stageRadix[|stageRadix| - 1] <= 5 ==> scratch.items == old(scratch.items))
      ensures scratch != null && stageRadix[|stageRadix| - 1] > 5 ==>
                var p := stageRadix[|stageRadix| - 1];
                |scratch.items| == p
                && forall i :: 0 <= i < p ==> scratch.items[i] == if i < |old(scratch.items)| then old(scratch.items)[i] else Zero
    {
      this.nfft := nfft;
      this.inverse := inverse;
      var tw: seq<Cpx> := [];
      for i := 0 to nfft
        invariant |tw| == i && forall j :: 0 <= j < i ==> tw[j] == expi(j)
      {
        tw := tw + [expi(i)];
      }
      twiddles := tw;
      var radix, remainder, p := Factorize(nfft);
      stageRadix, stageRemainder := radix, remainder;
      scratchBuf := scratch;
      new;
      if p > 5 {
        if scratchBuf == null {
          scratchBuf := new ScratchBuffer(p);
        } else {
          scratchBuf.Resize(p);
        }
      }
    }

    /**
      * What `transform` relies on at stage s: radix at least 2, m == 1
      * exactly at the last stage, the next stage splits m, and
      * `fstride * p * m == nfft` for fstride the product of the radices
      * before s.
      */
    lemma StageFacts(s: nat)
      requires PlanOk() && nfft >= 2 && s < |stageRadix|
      ensures |stageRemainder| == |stageRadix|
      ensures stageRadix[s] >= 2 && stageRemainder[s] >= 1
      ensures stageRemainder[s] == 1 <==> s == |stageRadix| - 1
      ensures s + 1 < |stageRadix| ==> stageRadix[s + 1] * stageRemainder[s + 1] == stageRemainder[s]
      ensures Product(stageRadix[..s]) * stageRadix[s] * stageRemainder[s] == nfft
      ensures Product(stageRadix[..s + 1]) == Product(stageRadix[..s]) * stageRadix[s]
      ensures stageRadix[s] > 5 ==> stageRadix[s] <= stageRadix[|stageRadix| - 1]
    {
      PlanShrinks(nfft);
      PlanLast(nfft);
      StageSize(nfft, s);
      PlanScratchFits(nfft);
      if s + 1 < |stageRadix| {
        PlanChain(nfft, s);
      }
      assert stageRadix[..s + 1] == stageRadix[..s] + [stageRadix[s]];
      ProductSnoc(stageRadix[..s], stageRadix[s]);
    }

    /**
      * The facts about the plan that `transform` uses, stage by stage:
      * radices at least 2, remainders above 1 except the last, which is 1,
      * each stage's p * m is the previous m (nfft for the first), and a
      * radix above 5 is at most the last radix.
      */
    predicate StageChain() {
      && |stageRadix| == |stageRemainder| >= 1
      && stageRadix[0] * stageRemainder[0] == nfft
      && stageRemainder[|stageRemainder| - 1] == 1
      && (forall s :: 0 <= s < |stageRadix| ==> stageRadix[s] >= 2)
      && (forall s :: 0 <= s < |stageRadix| - 1 ==> stageRemainder[s] > 1)
      && (forall s {:trigger Linked(s)} :: 0 <= s < |stageRadix| - 1 ==> Linked(s))
      && (forall s :: 0 <= s < |stageRadix| && stageRadix[s] > 5 ==> stageRadix[s] <= stageRadix[|stageRadix| - 1])
    }

    /** Stage s + 1 splits stage s's remainder: p * m of stage s + 1 is m of stage s. */
    predicate Linked(s: nat) {
      s + 1 < |stageRadix| && s + 1 < |stageRemainder| && stageRadix[s + 1] * stageRemainder[s + 1] == stageRemainder[s]
    }

    /** The constructor's plan has the stage chain for every nfft >= 2. */
    lemma PlanChained()
      requires PlanOk() && nfft >= 2
      ensures StageChain()
    {
      forall s | 0 <= s < |stageRadix|
        ensures stageRadix[s] >= 2 && (s < |stageRadix| - 1 ==> stageRemainder[s] > 1)
        ensures s < |stageRadix| - 1 ==> Linked(s)
        ensures stageRadix[s] > 5 ==> stageRadix[s] <= stageRadix[|stageRadix| - 1]
      {
        StageFacts(s);
      }
      StageFacts(|stageRadix| - 1);
      PlanFirst(nfft);
    }

    /** Twiddle i, or zero outside the table. */
    function Tw(i: int): Cpx {
      if 0 <= i < |twiddles| then twiddles[i] else Zero
    }

    /**
      * The twiddle index the generic butterfly uses for term q of a row
      * whose index advances by step: it starts at 0 and each term adds step,
      * wrapping modulo nfft.
      */
    function TwIndex(step: nat, q: nat): (r: nat)
      ensures nfft > 0 ==> r < nfft
    {
      if q == 0 || nfft == 0 then 0 else (TwIndex(step, q - 1) + step) % nfft
    }

    /** The wrapped index is the row's DFT exponent q * step reduced modulo nfft. */
    lemma {:induction false} TwIndexIsProduct(step: nat, q: nat)
      requires nfft > 0
      ensures TwIndex(step, q) == (q * step) % nfft
    {
      if q > 0 {
        TwIndexIsProduct(step, q - 1);
        ModAdd((q - 1) * step, step, nfft);
        assert (q - 1) * step + step == q * step;
      }
    }

    /**
      * Term q of a generic row: when step < nfft, one conditional
      * subtraction of nfft is the whole reduction modulo nfft.
      */
    lemma TwIndexStep(step: nat, q: nat)
      requires 0 < q && step < nfft
      ensures var prev := TwIndex(step, q - 1);
              TwIndex(step, q) == if prev + step >= nfft then prev + step - nfft else prev + step
    {
      var prev := TwIndex(step, q - 1);
      if prev + step >= nfft {
        DivModUnique(prev + step, nfft, 1, prev + step - nfft);
      } else {
        DivModUnique(prev + step, nfft, 0, prev + step);
      }
    }

    /**
      * One output of the generic butterfly: x[0] plus x[q] times twiddle
      * TwIndex(step, q) for q = 1 .. n - 1.
      */
    function GenSum(x: seq<Cpx>, step: nat, n: nat): Cpx {
      if n <= 1 then At(x, 0)
      else Add(GenSum(x, step, n - 1), Mul(At(x, n - 1), Tw(TwIndex(step, n - 1))))
    }

    /** GenSum reads only the first n entries of x. */
    lemma {:induction false} GenSumPrefix(x: seq<Cpx>, y: seq<Cpx>, step: nat, n: nat)
      requires 1 <= n <= |x| && n <= |y| && x[..n] == y[..n]
      ensures GenSum(x, step, n) == GenSum(y, step, n)
    {
      if n > 1 {
        assert x[..n - 1] == x[..n][..n - 1] && y[..n - 1] == y[..n][..n - 1];
        GenSumPrefix(x, y, step, n - 1);
        assert x[n - 1] == x[..n][n - 1] && y[n - 1] == y[..n][n - 1];
      } else {
        assert x[0] == x[..n][0] && y[0] == y[..n][0];
      }
    }

    /** The generic butterfly on column u: output row q1 sums with step fstride * (u + q1 * m). */
    function GenericColumn(x: seq<Cpx>, p: nat, m: nat, fs: nat, u: nat): (y: seq<Cpx>)
      ensures |y| == p
    {
      GenericRowsFrom(x, p, m, fs, u, p)
    }

    /** Rows of the generic butterfly for the n slots k, k + m, k + 2 * m, ... */
    function GenericRowsFrom(x: seq<Cpx>, p: nat, m: nat, fs: nat, k: nat, n: nat): (y: seq<Cpx>)
      ensures |y| == n
      decreases n
    {
      if n == 0 then [] else [GenSum(x, fs * k, p)] + GenericRowsFrom(x, p, m, fs, k + m, n - 1)
    }

    /** Row q1 of the generic butterfly on column u sums with step fstride * (u + q1 * m). */
    lemma {:induction false} GenericRowsFromAt(x: seq<Cpx>, p: nat, m: nat, fs: nat, k: nat, n: nat, q1: nat)
      requires q1 < n
      ensures GenericRowsFrom(x, p, m, fs, k, n)[q1] == GenSum(x, fs * (k + q1 * m), p)
      decreases n
    {
      if q1 > 0 {
        GenericRowsFromAt(x, p, m, fs, k + m, n - 1, q1 - 1);
        assert k + m + (q1 - 1) * m == k + q1 * m;
      }
    }

    /** The generic butterfly's column rewrite. */
    function GenericKernel(p: nat, m: nat, fs: nat): (seq<Cpx>, nat) -> seq<Cpx> {
      (x: seq<Cpx>, u: nat) => GenericColumn(x, p, m, fs, u)
    }

    /** What the butterfly of radix p at stride fs does to column u of a block with rows of m. */
    function Kernel(p: nat, m: nat, fs: nat): (seq<Cpx>, nat) -> seq<Cpx> {
      if p == 2 then
        (x: seq<Cpx>, u: nat) => Bfly2Column(x, Tw(u * fs))
      else if p == 3 then
        (x: seq<Cpx>, u: nat) => Bfly3Column(x, Tw(u * fs), Tw(u * fs * 2), Tw(fs * m * 1))
      else if p == 4 then
        (x: seq<Cpx>, u: nat) => Bfly4Column(x, Tw(u * fs), Tw(u * fs * 2), Tw(u * fs * 3), if inverse then -1.0 else 1.0)
      else if p == 5 then
        (x: seq<Cpx>, u: nat) => Bfly5Column(x, Tw(u * fs), Tw(u * fs * 2), Tw(u * fs * 3), Tw(u * fs * 4), Tw(fs * m * 1), Tw(fs * m * 2))
      else
        GenericKernel(p, m, fs)
    }

    /** The block after the radix-p butterfly: every column rewritten by Kernel. */
    function Butterfly(p: nat, m: nat, fs: nat, blk: seq<Cpx>): (r: seq<Cpx>)
      ensures |r| == |blk|
    {
      Done(blk, m, p, Kernel(p, m, fs), m)
    }

    /**
     * On a stage set up as `transform` sets it up (fs * p * m == nfft), every
     * twiddle index a dedicated butterfly reads for a column u < m lies
     * inside the table, so the kernel reads table entries and never the
     * out-of-range fallback of Tw.
     */
    lemma KernelReadsTable(p: nat, m: nat, fs: nat, u: nat, x: seq<Cpx>)
      requires 2 <= p <= 5 && u < m
      requires fs * p * m == nfft > 0 && |twiddles| == nfft
      ensures u * fs < nfft
      ensures p >= 3 ==> u * fs * 2 < nfft && fs * m * 1 < nfft
      ensures p >= 4 ==> u * fs * 3 < nfft
      ensures p == 5 ==> u * fs * 4 < nfft && fs * m * 2 < nfft
      ensures p == 2 ==> Kernel(p, m, fs)(x, u) == Bfly2Column(x, twiddles[u * fs])
      ensures p == 3 ==> Kernel(p, m, fs)(x, u) == Bfly3Column(x, twiddles[u * fs], twiddles[u * fs * 2], twiddles[fs * m * 1])
      ensures p == 4 ==>
        Kernel(p, m, fs)(x, u)
          == Bfly4Column(x, twiddles[u * fs], twiddles[u * fs * 2], twiddles[u * fs * 3], if inverse then -1.0 else 1.0)
      ensures p == 5 ==>
        Kernel(p, m, fs)(x, u)
          == Bfly5Column(x, twiddles[u * fs], twiddles[u * fs * 2], twiddles[u * fs * 3], twiddles[u * fs * 4],
                         twiddles[fs * m * 1], twiddles[fs * m * 2])
    {
      StageTwiddles(p, m, fs, u, nfft);
      KernelTableEntries(p, m, fs, u, x);
    }

    /** With the indices inside the table, the kernel's twiddles are table entries. */
    lemma KernelTableEntries(p: nat, m: nat, fs: nat, u: nat, x: seq<Cpx>)
      requires 2 <= p <= 5
      requires u * fs < |twiddles|
      requires p >= 3 ==> u * fs * 2 < |twiddles| && fs * m * 1 < |twiddles|
      requires p >= 4 ==> u * fs * 3 < |twiddles|
      requires p == 5 ==> u * fs * 4 < |twiddles| && fs * m * 2 < |twiddles|
      ensures p == 2 ==> Kernel(p, m, fs)(x, u) == Bfly2Column(x, twiddles[u * fs])
      ensures p == 3 ==> Kernel(p, m, fs)(x, u) == Bfly3Column(x, twiddles[u * fs], twiddles[u * fs * 2], twiddles[fs * m * 1])
      ensures p == 4 ==>
        Kernel(p, m, fs)(x, u)
          == Bfly4Column(x, twiddles[u * fs], twiddles[u * fs * 2], twiddles[u * fs * 3], if inverse then -1.0 else 1.0)
      ensures p == 5 ==>
        Kernel(p, m, fs)(x, u)
          == Bfly5Column(x, twiddles[u * fs], twiddles[u * fs * 2], twiddles[u * fs * 3], twiddles[u * fs * 4],
                         twiddles[fs * m * 1], twiddles[fs * m * 2])
    {
      var w1 := Tw(u * fs);
      assert w1 == twiddles[u * fs];
      if p == 3 {
        var w2, e := Tw(u * fs * 2), Tw(fs * m * 1);
        assert w2 == twiddles[u * fs * 2] && e == twiddles[fs * m * 1];
      } else if p == 4 {
        var w2, w3 := Tw(u * fs * 2), Tw(u * fs * 3);
        assert w2 == twiddles[u * fs * 2] && w3 == twiddles[u * fs * 3];
      } else if p == 5 {
        var w2, w3, w4 := Tw(u * fs * 2), Tw(u * fs * 3), Tw(u * fs * 4);
        var ya, yb := Tw(fs * m * 1), Tw(fs * m * 2);
        assert w2 == twiddles[u * fs * 2] && w3 == twiddles[u * fs * 3] && w4 == twiddles[u * fs * 4];
        assert ya == twiddles[fs * m * 1] && yb == twiddles[fs * m * 2];
      }
    }

    lemma KernelLength(p: nat, m: nat, fs: nat, x: seq<Cpx>, u: nat)
      requires p >= 2
      ensures |Kernel(p, m, fs)(x, u)| == p
    {
    }

    /**
     * `kf_bfly2`, called with fs * 2 * m == nfft: the twiddle it reads for
     * column k is the table entry k * fs, which lies inside the table.
     */
    method Bfly2(out: array<Cpx>, base: nat, fs: nat, m: nat)
      requires base + 2 * m <= out.Length
      requires fs * 2 * m == nfft > 0 && |twiddles| == nfft
      modifies out
      ensures ColumnsDone(out[..], old(out[..]), base, m, 2, Kernel(2, m, fs), m)
    {
      for k := 0 to m
        invariant ColumnsDone(out[..], old(out[..]), base, m, 2, Kernel(2, m, fs), k)
      {
        TwiddleIndex(k, 1, fs, 2, m, nfft);
        Bfly2At(out, base, fs, m, k, old(out[..]));
      }
    }

    /** One pass of kf_bfly2's loop: column k, whose twiddle position has advanced k times by fs. */
    method Bfly2At(out: array<Cpx>, base: nat, fs: nat, m: nat, k: nat, ghost orig: seq<Cpx>)
      requires k < m && k * fs < |twiddles|
      requires ColumnsDone(out[..], orig, base, m, 2, Kernel(2, m, fs), k)
      modifies out
      ensures ColumnsDone(out[..], orig, base, m, 2, Kernel(2, m, fs), k + 1)
    {
      var xs := ReadColumn(out, base, m, 2, k);
      var ys := Bfly2Column(xs, Tw(k * fs));
      RewriteColumn(out, base, m, 2, k, ys, orig, Kernel(2, m, fs));
    }

    /**
     * `kf_bfly3`, called with fs * 3 * m == nfft: its twiddle cursors `tw1`
     * and `tw2`, stepped by fs and 2 * fs, read the table entries k * fs and
     * k * fs * 2 for column k, and epi3 is entry fs * m; all inside the table.
     */
    method Bfly3(out: array<Cpx>, base: nat, fs: nat, m: nat)
      requires base + 3 * m <= out.Length
      requires fs * 3 * m == nfft > 0 && |twiddles| == nfft
      modifies out
      ensures ColumnsDone(out[..], old(out[..]), base, m, 3, Kernel(3, m, fs), m)
    {
      assert fs * m * 1 < |twiddles| by {
        FactorsPositive(fs * 3, m);
        TwiddleIndex(0, 1, fs, 3, m, nfft);
      }
      var epi3 := twiddles[fs * m * 1];
      for k := 0 to m
        invariant ColumnsDone(out[..], old(out[..]), base, m, 3, Kernel(3, m, fs), k)
      {
        TwiddleIndex(k, 1, fs, 3, m, nfft);
        TwiddleIndex(k, 2, fs, 3, m, nfft);
        Bfly3At(out, base, fs, m, k, epi3, old(out[..]));
      }
    }

    /** One pass of kf_bfly3's loop: column k, with epi3 the twiddle at fs * m. */
    method Bfly3At(out: array<Cpx>, base: nat, fs: nat, m: nat, k: nat, epi3: Cpx, ghost orig: seq<Cpx>)
      requires k < m && k * fs < |twiddles| && k * fs * 2 < |twiddles|
      requires epi3 == Tw(fs * m * 1)
      requires ColumnsDone(out[..], orig, base, m, 3, Kernel(3, m, fs), k)
      modifies out
      ensures ColumnsDone(out[..], orig, base, m, 3, Kernel(3, m, fs), k + 1)
    {
      var xs := ReadColumn(out, base, m, 3, k);
      var ys := Bfly3Column(xs, Tw(k * fs), Tw(k * fs * 2), epi3);
      RewriteColumn(out, base, m, 3, k, ys, orig, Kernel(3, m, fs));
    }

    /**
     * `kf_bfly4`, called with fs * 4 * m == nfft: its cursors read the table
     * entries k * fs, k * fs * 2 and k * fs * 3 for column k, all inside the table.
     */
    method Bfly4(out: array<Cpx>, base: nat, fs: nat, m: nat)
      requires base + 4 * m <= out.Length
      requires fs * 4 * m == nfft > 0 && |twiddles| == nfft
      modifies out
      ensures ColumnsDone(out[..], old(out[..]), base, m, 4, Kernel(4, m, fs), m)
    {
      var negativeIfInverse: real := if inverse then -1.0 else 1.0;
      for k := 0 to m
        invariant ColumnsDone(out[..], old(out[..]), base, m, 4, Kernel(4, m, fs), k)
      {
        TwiddleIndex(k, 2, fs, 4, m, nfft);
        TwiddleIndex(k, 3, fs, 4, m, nfft);
        Bfly4At(out, base, fs, m, k, negativeIfInverse, old(out[..]));
      }
    }

    /** One pass of kf_bfly4's loop: column k, with nii the sign that depends on the direction. */
    method Bfly4At(out: array<Cpx>, base: nat, fs: nat, m: nat, k: nat, nii: real, ghost orig: seq<Cpx>)
      requires k < m && k * fs < |twiddles| && k * fs * 2 < |twiddles| && k * fs * 3 < |twiddles|
      requires nii == if inverse then -1.0 else 1.0
      requires ColumnsDone(out[..], orig, base, m, 4, Kernel(4, m, fs), k)
      modifies out
      ensures ColumnsDone(out[..], orig, base, m, 4, Kernel(4, m, fs), k + 1)
    {
      var xs := ReadColumn(out, base, m, 4, k);
      var ys := Bfly4Column(xs, Tw(k * fs), Tw(k * fs * 2), Tw(k * fs * 3), nii);
      RewriteColumn(out, base, m, 4, k, ys, orig, Kernel(4, m, fs));
    }

    /**
     * `kf_bfly5`, called with fs * 5 * m == nfft: it reads the table entries
     * u * fs .. u * fs * 4 for column u, and ya and yb are entries fs * m and
     * fs * m * 2; all inside the table.
     */
    method Bfly5(out: array<Cpx>, base: nat, fs: nat, m: nat)
      requires base + 5 * m <= out.Length
      requires fs * 5 * m == nfft > 0 && |twiddles| == nfft
      modifies out
      ensures ColumnsDone(out[..], old(out[..]), base, m, 5, Kernel(5, m, fs), m)
    {
      assert fs * m * 1 < |twiddles| && fs * m * 2 < |twiddles| by {
        FactorsPositive(fs * 5, m);
        TwiddleIndex(0, 2, fs, 5, m, nfft);
      }
      var ya := twiddles[fs * m * 1];
      var yb := twiddles[fs * m * 2];
      for u := 0 to m
        invariant ColumnsDone(out[..], old(out[..]), base, m, 5, Kernel(5, m, fs), u)
      {
        TwiddleIndex(u, 2, fs, 5, m, nfft);
        TwiddleIndex(u, 3, fs, 5, m, nfft);
        TwiddleIndex(u, 4, fs, 5, m, nfft);
        Bfly5At(out, base, fs, m, u, ya, yb, old(out[..]));
      }
    }

    /** One pass of kf_bfly5's loop: column u, with ya and yb the twiddles at fs * m and 2 * fs * m. */
    method Bfly5At(out: array<Cpx>, base: nat, fs: nat, m: nat, u: nat, ya: Cpx, yb: Cpx, ghost orig: seq<Cpx>)
      requires u < m && u * fs < |twiddles| && u * fs * 2 < |twiddles|
      requires u * fs * 3 < |twiddles| && u * fs * 4 < |twiddles|
      requires ya == Tw(fs * m * 1) && yb == Tw(fs * m * 2)
      requires ColumnsDone(out[..], orig, base, m, 5, Kernel(5, m, fs), u)
      modifies out
      ensures ColumnsDone(out[..], orig, base, m, 5, Kernel(5, m, fs), u + 1)
    {
      var xs := ReadColumn(out, base, m, 5, u);
      var ys := Bfly5Column(xs, Tw(u * fs), Tw(u * fs * 2), Tw(u * fs * 3), Tw(u * fs * 4), ya, yb);
      RewriteColumn(out, base, m, 5, u, ys, orig, Kernel(5, m, fs));
    }

    /**
      * `kf_bfly_generic`, for the radices without a dedicated butterfly:
      * column by column, the column is copied to the scratch buffer and
      * each of its p outputs is recomputed from the copy.
      */
    method BflyGeneric(out: array<Cpx>, base: nat, fs: nat, m: nat, p: nat)
      requires 1 <= p && base + p * m <= out.Length
      requires fs * p * m == nfft > 0 && |twiddles| == nfft
      requires scratchBuf != null && p <= |scratchBuf.items|
      modifies out, scratchBuf
      ensures ColumnsDone(out[..], old(out[..]), base, m, p, GenericKernel(p, m, fs), m)
      ensures |scratchBuf.items| == old(|scratchBuf.items|)
    {
      for u := 0 to m
        invariant ColumnsDone(out[..], old(out[..]), base, m, p, GenericKernel(p, m, fs), u)
        invariant |scratchBuf.items| == old(|scratchBuf.items|)
      {
        GenericAt(out, base, fs, m, p, u, old(out[..]));
      }
    }

    /**
      * One pass of kf_bfly_generic's outer loop: column u is gathered into
      * the scratch buffer, then each of its rows gets its sum over that copy.
      * The rows only read the scratch buffer, so collecting them and writing
      * the column once leaves the block as the source's row-by-row writes do.
      */
    method GenericAt(out: array<Cpx>, base: nat, fs: nat, m: nat, p: nat, u: nat, ghost orig: seq<Cpx>)
      requires u < m && 1 <= p
      requires fs * p * m == nfft > 0 && |twiddles| == nfft
      requires scratchBuf != null && p <= |scratchBuf.items|
      requires ColumnsDone(out[..], orig, base, m, p, GenericKernel(p, m, fs), u)
      modifies out, scratchBuf
      ensures ColumnsDone(out[..], orig, base, m, p, GenericKernel(p, m, fs), u + 1)
      ensures |scratchBuf.items| == old(|scratchBuf.items|)
    {
      GenericGather(out, base, m, p, u);
      var ys := GenericOutputs(fs, m, p, u, scratchBuf.items[..p]);
      RewriteColumn(out, base, m, p, u, ys, orig, GenericKernel(p, m, fs));
    }

    /** The gathering loop of kf_bfly_generic: column u of the block into scratch[0 .. p - 1]. */
    method GenericGather(out: array<Cpx>, base: nat, m: nat, p: nat, u: nat)
      requires u < m && base + p * m <= out.Length
      requires scratchBuf != null && p <= |scratchBuf.items|
      modifies scratchBuf
      ensures |scratchBuf.items| == old(|scratchBuf.items|)
      ensures scratchBuf.items[..p] == Column(out[base..base + p * m], m, p, u)
    {
      ghost var col := Column(out[base..base + p * m], m, p, u);
      var k := u;
      for q1 := 0 to p
        invariant k == u + q1 * m
        invariant |scratchBuf.items| == old(|scratchBuf.items|)
        invariant forall j :: 0 <= j < q1 ==> scratchBuf.items[j] == col[j]
      {
        ColumnOfArray(out[..], base, m, p, u, q1);
        scratchBuf.items := scratchBuf.items[q1 := out[base + k]];
        k := k + m;
      }
    }

    /** The p outputs of column u, each a GenericRow with step fstride * k for its slot k. */
    method GenericOutputs(fs: nat, m: nat, p: nat, u: nat, ghost xs: seq<Cpx>) returns (ys: seq<Cpx>)
      requires u < m && 1 <= p
      requires fs * p * m == nfft > 0 && |twiddles| == nfft
      requires scratchBuf != null && p <= |scratchBuf.items| && scratchBuf.items[..p] == xs
      ensures ys == GenericColumn(xs, p, m, fs, u)
    {
      ys := [];
      var k := u;
      for q1 := 0 to p
        invariant k == u + q1 * m
        invariant ys + GenericRowsFrom(xs, p, m, fs, k, p - q1) == GenericColumn(xs, p, m, fs, u)
      {
        RowSlot(u, q1, m, p, fs, nfft);
        var row := GenericRow(fs * k, p);
        GenSumPrefix(scratchBuf.items, xs, fs * k, p);
        assert ys + [row] + GenericRowsFrom(xs, p, m, fs, k + m, p - q1 - 1)
            == ys + GenericRowsFrom(xs, p, m, fs, k, p - q1);
        ys := ys + [row];
        k := k + m;
      }
    }

    /**
      * One output of kf_bfly_generic: scratch[0] plus scratch[q] times the
      * twiddle at a running index that advances by step and wraps by one
      * subtraction of nfft.
      */
    method GenericRow(step: nat, p: nat) returns (acc: Cpx)
      requires 1 <= p && step < nfft && |twiddles| == nfft
      requires scratchBuf != null && p <= |scratchBuf.items|
      ensures acc == GenSum(scratchBuf.items, step, p)
    {
      var scratch := scratchBuf.items;
      var twidx := 0;
      acc := scratch[0];
      for q := 1 to p
        invariant twidx == TwIndex(step, q - 1)
        invariant acc == GenSum(scratch, step, q)
      {
        TwIndexStep(step, q);
        twidx := twidx + step;
        if twidx >= nfft {
          twidx := twidx - nfft;
        }
        acc := Add(acc, Mul(scratch[q], twiddles[twidx]));
      }
    }

    // -------------------------------------------------------------------
    // The recursive driver
    // -------------------------------------------------------------------

    /** The leaf copy: p inputs at stride fs from inBase. */
    function Leaf(input: seq<Cpx>, inBase: nat, fs: nat, p: nat): (r: seq<Cpx>)
      ensures |r| == p
    {
      seq(p, j requires 0 <= j < p => At(input, inBase + j * fs))
    }

    /**
      * `transform` at stage s with input offset inBase and stride fs: the
      * p sub-transforms (or, at the last stage, the leaf copy) laid out
      * one after the other, then recombined by the stage's butterfly.
      * With withButterflies false it is the data movement alone.
      */
    function Run(input: seq<Cpx>, inBase: nat, s: nat, fs: nat, withButterflies: bool): seq<Cpx>
      decreases |stageRadix| - s, 1
    {
      if s >= |stageRadix| || s >= |stageRemainder| then []
      else
        var p := stageRadix[s];
        var m := stageRemainder[s];
        var gathered := if m == 1 then Leaf(input, inBase, fs, p) else Blocks(input, inBase, s, fs, p, withButterflies);
        if withButterflies then Butterfly(p, m, fs, gathered) else gathered
    }

    /** The first n sub-transforms of stage s, sub-transform j reading from inBase + j * fs at stride fs * p. */
    function Blocks(input: seq<Cpx>, inBase: nat, s: nat, fs: nat, n: nat, withButterflies: bool): seq<Cpx>
      requires s < |stageRadix|
      decreases |stageRadix| - s, 0, n
    {
      if n == 0 then []
      else Blocks(input, inBase, s, fs, n - 1, withButterflies)
           + Run(input, inBase + (n - 1) * fs, s + 1, fs * stageRadix[s], withButterflies)
    }

    /** Stage s produces p * m outputs. */
    lemma {:induction false} RunLength(input: seq<Cpx>, inBase: nat, s: nat, fs: nat, wb: bool)
      requires StageChain() && s < |stageRadix|
      ensures |Run(input, inBase, s, fs, wb)| == stageRadix[s] * stageRemainder[s]
      decreases |stageRadix| - s, 1
    {
      if stageRemainder[s] != 1 {
        BlocksLength(input, inBase, s, fs, stageRadix[s], wb);
      }
    }

    /** n sub-transforms of stage s produce n * m outputs. */
    lemma {:induction false} BlocksLength(input: seq<Cpx>, inBase: nat, s: nat, fs: nat, n: nat, wb: bool)
      requires StageChain() && s + 1 < |stageRadix|
      ensures |Blocks(input, inBase, s, fs, n, wb)| == n * stageRemainder[s]
      decreases |stageRadix| - s, 0, n
    {
      if n > 0 {
        assert Linked(s);
        BlocksLength(input, inBase, s, fs, n - 1, wb);
        RunLength(input, inBase + (n - 1) * fs, s + 1, fs * stageRadix[s], wb);
        LengthStep(|Blocks(input, inBase, s, fs, n - 1, wb)|, n, stageRemainder[s]);
      }
    }

    /**
      * Where the data movement of stage s puts input offsets: output i holds
      * the sample at inBase + fs * Offset(s, i). Block i / m comes from
      * sub-transform i / m, which starts i / m strides further on and reads
      * at stride fs * p, so Offset is the digit reversal of i in the mixed
      * radix of the stages from s on.
      */
    function Offset(s: nat, i: nat): nat
      decreases |stageRadix| - s
    {
      if s >= |stageRadix| || s >= |stageRemainder| || stageRemainder[s] <= 1 then i
      else i / stageRemainder[s] + stageRadix[s] * Offset(s + 1, i % stageRemainder[s])
    }

    /** The inverse digit order: the output of stage s that receives input offset o. */
    function Slot(s: nat, o: nat): nat
      decreases |stageRadix| - s
    {
      if s >= |stageRadix| || s >= |stageRemainder| || stageRemainder[s] <= 1 || stageRadix[s] == 0 then o
      else (o % stageRadix[s]) * stageRemainder[s] + Slot(s + 1, o / stageRadix[s])
    }

    /** Offset maps the p * m outputs of stage s into its p * m input offsets, and Slot undoes it. */
    lemma {:induction false} OffsetThenSlot(s: nat, i: nat)
      requires StageChain() && s < |stageRadix| && i < stageRadix[s] * stageRemainder[s]
      ensures Offset(s, i) < stageRadix[s] * stageRemainder[s] && Slot(s, Offset(s, i)) == i
      decreases |stageRadix| - s
    {
      var p, m := stageRadix[s], stageRemainder[s];
      if m > 1 {
        assert Linked(s);
        Split(i, m, p);
        var j, t := i / m, i % m;
        OffsetThenSlot(s + 1, t);
        Join(j, Offset(s + 1, t), p, m);
        assert j * m + t == i;
      }
    }

    /** Slot maps the p * m input offsets of stage s into its p * m outputs, and Offset undoes it. */
    lemma {:induction false} SlotThenOffset(s: nat, o: nat)
      requires StageChain() && s < |stageRadix| && o < stageRadix[s] * stageRemainder[s]
      ensures Slot(s, o) < stageRadix[s] * stageRemainder[s] && Offset(s, Slot(s, o)) == o
      decreases |stageRadix| - s
    {
      var p, m := stageRadix[s], stageRemainder[s];
      if m > 1 {
        assert Linked(s);
        Split(o, p, m);
        var j, o1 := o % p, o / p;
        SlotThenOffset(s + 1, o1);
        Join(Slot(s + 1, o1), j, m, p);
        assert j * m + Slot(s + 1, o1) == Slot(s + 1, o1) + m * j;
      }
    }

    /** Output j * m + t of the first n sub-transforms of stage s is output t of sub-transform j. */
    lemma {:induction false} BlocksAt(input: seq<Cpx>, inBase: nat, s: nat, fs: nat, n: nat, j: nat, t: nat, wb: bool)
      requires StageChain() && s + 1 < |stageRadix| && j < n && t < stageRemainder[s]
      ensures At(Blocks(input, inBase, s, fs, n, wb), j * stageRemainder[s] + t)
           == At(Run(input, inBase + j * fs, s + 1, fs * stageRadix[s], wb), t)
      decreases n
    {
      var m := stageRemainder[s];
      BlocksLength(input, inBase, s, fs, n - 1, wb);
      AtConcat(Blocks(input, inBase, s, fs, n - 1, wb), Run(input, inBase + (n - 1) * fs, s + 1, fs * stageRadix[s], wb), j * m + t);
      if j < n - 1 {
        SubBlock(j, m, n - 1);
        BlocksAt(input, inBase, s, fs, n - 1, j, t, wb);
      }
    }

    /** Sub-transform j's sample at offset o of stride fs * p is the stage's sample at offset j + p * o of stride fs. */
    lemma StrideOffset(inBase: nat, j: nat, fs: nat, p: nat, nextFs: nat, o: nat)
      requires nextFs == fs * p
      ensures inBase + j * fs + nextFs * o == inBase + fs * (j + p * o)
    {
      MulAssoc(fs, p, o);
    }

    /** Without butterflies, output i of stage s is the input sample at inBase + fs * Offset(s, i). */
    lemma {:induction false} RunReads(input: seq<Cpx>, inBase: nat, s: nat, fs: nat, i: nat)
      requires StageChain() && s < |stageRadix| && i < stageRadix[s] * stageRemainder[s]
      ensures At(Run(input, inBase, s, fs, false), i) == At(input, inBase + fs * Offset(s, i))
      decreases |stageRadix| - s
    {
      var p, m := stageRadix[s], stageRemainder[s];
      if m > 1 {
        assert Linked(s);
        Split(i, m, p);
        var j, t := i / m, i % m;
        var sub: nat := inBase + j * fs;
        var nextFs: nat := fs * p;
        RunBlockRead(input, inBase, s, fs, j, t);
        RunReads(input, sub, s + 1, nextFs, t);
        OffsetStep(s, j, t);
        StrideOffset(inBase, j, fs, p, nextFs, Offset(s + 1, t));
        assert i == j * m + t;
      } else {
        LeafReads(input, inBase, s, fs, i);
      }
    }

    /** At the last stage output i is the leaf copy's sample inBase + fs * i. */
    lemma LeafReads(input: seq<Cpx>, inBase: nat, s: nat, fs: nat, i: nat)
      requires s < |stageRadix| && s < |stageRemainder| && stageRemainder[s] <= 1
      requires i < stageRadix[s] * stageRemainder[s]
      ensures At(Run(input, inBase, s, fs, false), i) == At(input, inBase + fs * Offset(s, i))
    {
      RunMoves(input, inBase, s, fs);
      MulComm(i, fs);
      assert At(Run(input, inBase, s, fs, false), i) == At(input, inBase + i * fs);
    }

    /** Output j * m + t of stage s without butterflies is output t of its sub-transform j. */
    lemma RunBlockRead(input: seq<Cpx>, inBase: nat, s: nat, fs: nat, j: nat, t: nat)
      requires StageChain() && s + 1 < |stageRadix| && j < stageRadix[s] && t < stageRemainder[s]
      ensures At(Run(input, inBase, s, fs, false), j * stageRemainder[s] + t)
           == At(Run(input, inBase + j * fs, s + 1, fs * stageRadix[s], false), t)
    {
      RunMoves(input, inBase, s, fs);
      BlocksAt(input, inBase, s, fs, stageRadix[s], j, t, false);
    }

    /** The digit reversal of j * m + t at stage s puts j first and the reversal of t at stage s + 1 after it. */
    lemma OffsetStep(s: nat, j: nat, t: nat)
      requires s < |stageRadix| && s < |stageRemainder| && stageRemainder[s] > 1 && t < stageRemainder[s]
      ensures Offset(s, j * stageRemainder[s] + t) == j + stageRadix[s] * Offset(s + 1, t)
    {
      DivModUnique(j * stageRemainder[s] + t, stageRemainder[s], j, t);
    }

    /** Stage s without butterflies is the leaf copy at the last stage and the p sub-transforms before it. */
    lemma RunMoves(input: seq<Cpx>, inBase: nat, s: nat, fs: nat)
      requires s < |stageRadix| && s < |stageRemainder|
      ensures Run(input, inBase, s, fs, false)
           == if stageRemainder[s] == 1 then Leaf(input, inBase, fs, stageRadix[s]) else Blocks(input, inBase, s, fs, stageRadix[s], false)
    {
    }

    /**
      * The data movement of a whole transform, the leaf copies with every
      * butterfly left out: output i holds input sample Offset(0, i), and
      * Offset is a bijection of 0 .. nfft - 1 with inverse Slot, so each
      * input sample is read by exactly one output.
      */
    lemma LeafOrder(input: seq<Cpx>)
      requires PlanOk() && nfft >= 2
      ensures |Run(input, 0, 0, 1, false)| == nfft
      ensures forall i :: 0 <= i < nfft ==>
                Offset(0, i) < nfft && Slot(0, Offset(0, i)) == i && Run(input, 0, 0, 1, false)[i] == At(input, Offset(0, i))
      ensures forall o :: 0 <= o < nfft ==> Slot(0, o) < nfft && Offset(0, Slot(0, o)) == o
    {
      PlanChained();
      RunLength(input, 0, 0, 1, false);
      forall i | 0 <= i < nfft
        ensures Offset(0, i) < nfft && Slot(0, Offset(0, i)) == i && Run(input, 0, 0, 1, false)[i] == At(input, Offset(0, i))
      {
        OffsetThenSlot(0, i);
        RunReads(input, 0, 0, 1, i);
      }
      forall o | 0 <= o < nfft
        ensures Slot(0, o) < nfft && Offset(0, Slot(0, o)) == o
      {
        SlotThenOffset(0, o);
      }
    }

    /**
      * The leaf branch of `transform` (m == 1): out[outBase + j] gets
      * input[inBase + j * fs] for j = 0 .. p - 1.
      */
    method LeafCopy(input: seq<Cpx>, inBase: nat, fs: nat, p: nat, out: array<Cpx>, outBase: nat)
      requires inBase < fs && fs * p <= |input| && outBase + p <= out.Length
      modifies out
      ensures Replaced(out[..], old(out[..]), outBase, Leaf(input, inBase, fs, p))
    {
      var inPos := inBase;
      for j := 0 to p
        invariant inPos == inBase + j * fs
        invariant out[outBase..outBase + j] == Leaf(input, inBase, fs, p)[..j]
        invariant out[..outBase] == old(out[..outBase]) && out[outBase + p..] == old(out[outBase + p..])
      {
        SubOffset(inBase, j, fs, p);
        out[outBase + j] := input[inPos];
        assert out[outBase..outBase + j + 1] == out[outBase..outBase + j] + [input[inPos]];
        inPos := inPos + fs;
      }
    }

    /** The recursion branch of `transform` (m > 1): sub-transform j writes block j of m outputs. */
    method TransformBlocks(input: seq<Cpx>, inBase: nat, out: array<Cpx>, outBase: nat, s: nat, fs: nat)
      requires StageChain() && ScratchOk() && |twiddles| == nfft && s + 1 < |stageRadix|
      requires fs * stageRadix[s] * stageRemainder[s] == nfft && inBase < fs && nfft <= |input|
      requires outBase + stageRadix[s] * stageRemainder[s] <= out.Length
      modifies out, scratchBuf
      ensures Replaced(out[..], old(out[..]), outBase, Blocks(input, inBase, s, fs, stageRadix[s], true))
      ensures ScratchOk()
      decreases |stageRadix| - s, 1
    {
      var p := stageRadix[s];
      var m := stageRemainder[s];
      assert Linked(s);
      StrideNext(fs, p, m, stageRadix[s + 1], stageRemainder[s + 1], nfft);
      var nextFs := fs * p;
      var inPos: nat, outPos: nat := inBase, outBase;
      for j := 0 to p
        invariant BlocksWritten(input, inBase, s, fs, out[..], old(out[..]), outBase, j, inPos, outPos)
        invariant ScratchOk()
      {
        inPos, outPos := BlockStep(input, inBase, out, outBase, s, fs, nextFs, j, inPos, outPos, old(out[..]));
      }
    }

    /**
      * The state of the sub-transform loop of stage s after j passes: the
      * positions have advanced j times, the first j blocks are written, and
      * nothing outside the stage's p * m outputs has changed since orig.
      */
    ghost predicate BlocksWritten(input: seq<Cpx>, inBase: nat, s: nat, fs: nat, cur: seq<Cpx>, orig: seq<Cpx>,
                                  outBase: nat, j: nat, inPos: nat, outPos: nat)
      requires s < |stageRadix| && s < |stageRemainder|
    {
      && inPos == inBase + j * fs && outPos == outBase + j * stageRemainder[s] && outBase <= outPos
      && outPos <= outBase + stageRadix[s] * stageRemainder[s] <= |cur| == |orig|
      && cur[outBase..outPos] == Blocks(input, inBase, s, fs, j, true)
      && cur[..outBase] == orig[..outBase]
      && cur[outBase + stageRadix[s] * stageRemainder[s]..] == orig[outBase + stageRadix[s] * stageRemainder[s]..]
    }

    /** One pass of the sub-transform loop: sub-transform j, then both positions advance. */
    method BlockStep(input: seq<Cpx>, inBase: nat, out: array<Cpx>, outBase: nat, s: nat, fs: nat, nextFs: int,
                     j: nat, inPos: nat, outPos: nat, ghost orig: seq<Cpx>) returns (inNext: nat, outNext: nat)
      requires StageChain() && ScratchOk() && |twiddles| == nfft && s + 1 < |stageRadix|
      requires nextFs == fs * stageRadix[s] && nextFs * stageRadix[s + 1] * stageRemainder[s + 1] == nfft
      requires stageRadix[s + 1] * stageRemainder[s + 1] == stageRemainder[s]
      requires inBase < fs && nfft <= |input| && j < stageRadix[s]
      requires BlocksWritten(input, inBase, s, fs, out[..], orig, outBase, j, inPos, outPos)
      modifies out, scratchBuf
      ensures BlocksWritten(input, inBase, s, fs, out[..], orig, outBase, j + 1, inNext, outNext)
      ensures ScratchOk()
      decreases |stageRadix| - s, 0
    {
      SubBlock(j, stageRemainder[s], stageRadix[s]);
      SubOffset(inBase, j, fs, stageRadix[s]);
      ghost var before := out[..];
      TransformStage(input, inPos, out, outPos, s + 1, nextFs);
      RunLength(input, inPos, s + 1, nextFs, true);
      BlocksAdvance(input, inBase, s, fs, before, out[..], orig, outBase, j, inPos, outPos);
      inNext := inPos + fs;
      outNext := outPos + stageRemainder[s];
    }

    /** Sub-transform j, written at outPos, extends the loop's account of the blocks by one. */
    lemma BlocksAdvance(input: seq<Cpx>, inBase: nat, s: nat, fs: nat, before: seq<Cpx>, after: seq<Cpx>, orig: seq<Cpx>,
                        outBase: nat, j: nat, inPos: nat, outPos: nat)
      requires s + 1 < |stageRadix| && s < |stageRemainder| && j < stageRadix[s] && inBase < fs
      requires BlocksWritten(input, inBase, s, fs, before, orig, outBase, j, inPos, outPos)
      requires Replaced(after, before, outPos, Run(input, inPos, s + 1, fs * stageRadix[s], true))
      requires |Run(input, inPos, s + 1, fs * stageRadix[s], true)| == stageRemainder[s]
      ensures BlocksWritten(input, inBase, s, fs, after, orig, outBase, j + 1, inPos + fs, outPos + stageRemainder[s])
    {
      var p := stageRadix[s];
      var m := stageRemainder[s];
      SubBlock(j, m, p);
      SubOffset(inBase, j, fs, p);
      BlocksStep(input, inBase, s, fs, j, inPos, true);
      BlockAppended(before, after, outBase, outPos, m, Blocks(input, inBase, s, fs, j, true),
                    Run(input, inPos, s + 1, fs * p, true), Blocks(input, inBase, s, fs, j + 1, true));
      PrefixKept(after, before, outBase, outPos);
      SuffixKept(after, before, outPos + m, outBase + p * m);
    }

    /** Stage s's first j + 1 sub-transforms: the first j, then sub-transform j reading from inPos. */
    lemma BlocksStep(input: seq<Cpx>, inBase: nat, s: nat, fs: nat, j: nat, inPos: nat, wb: bool)
      requires s < |stageRadix| && inPos == inBase + j * fs
      ensures Blocks(input, inBase, s, fs, j + 1, wb)
           == Blocks(input, inBase, s, fs, j, wb) + Run(input, inPos, s + 1, fs * stageRadix[s], wb)
    {
    }

    /**
      * `transform(fft_in, fft_out, stage, fstride)`: the p sub-transforms
      * or the leaf copy, then the stage's butterfly over the p * m outputs.
      */
    method TransformStage(input: seq<Cpx>, inBase: nat, out: array<Cpx>, outBase: nat, s: nat, fs: nat)
      requires StageChain() && ScratchOk() && |twiddles| == nfft && s < |stageRadix|
      requires fs * stageRadix[s] * stageRemainder[s] == nfft && inBase < fs && nfft <= |input|
      requires outBase + stageRadix[s] * stageRemainder[s] <= out.Length
      modifies out, scratchBuf
      ensures Replaced(out[..], old(out[..]), outBase, Run(input, inBase, s, fs, true))
      ensures ScratchOk()
      decreases |stageRadix| - s, 2
    {
      var p := stageRadix[s];
      var m := stageRemainder[s];
      StageSizes(fs, p, m, nfft);
      ghost var gathered;
      if m == 1 {
        assert p * m == p;
        LeafCopy(input, inBase, fs, p, out, outBase);
        gathered := Leaf(input, inBase, fs, p);
      } else {
        TransformBlocks(input, inBase, out, outBase, s, fs);
        gathered := Blocks(input, inBase, s, fs, p, true);
        BlocksLength(input, inBase, s, fs, p, true);
      }
      ghost var mid := out[..];
      assert |gathered| == p * m && mid[outBase..outBase + p * m] == gathered;
      Recombine(out, outBase, fs, p, m);
      RunStage(input, inBase, s, fs, gathered);
      ReplacedTwice(old(out[..]), mid, out[..], outBase, gathered, Run(input, inBase, s, fs, true));
    }

    /** Stage s of the driver is the butterfly applied to what the leaf copy or the sub-transforms gathered. */
    lemma RunStage(input: seq<Cpx>, inBase: nat, s: nat, fs: nat, gathered: seq<Cpx>)
      requires s < |stageRadix| && s < |stageRemainder|
      requires gathered == if stageRemainder[s] == 1 then Leaf(input, inBase, fs, stageRadix[s])
                           else Blocks(input, inBase, s, fs, stageRadix[s], true)
      ensures Run(input, inBase, s, fs, true) == Butterfly(stageRadix[s], stageRemainder[s], fs, gathered)
    {
    }

    /** The switch on p at the end of `transform`. */
    method Recombine(out: array<Cpx>, base: nat, fs: nat, p: nat, m: nat)
      requires ScratchOk() && |twiddles| == nfft && p >= 2 && base + p * m <= out.Length
      requires fs * p * m == nfft > 0
      requires p > 5 ==> p <= stageRadix[|stageRadix| - 1]
      modifies out, scratchBuf
      ensures ColumnsDone(out[..], old(out[..]), base, m, p, Kernel(p, m, fs), m)
      ensures ScratchOk()
    {
      if p == 2 {
        Bfly2(out, base, fs, m);
      } else if p == 3 {
        Bfly3(out, base, fs, m);
      } else if p == 4 {
        Bfly4(out, base, fs, m);
      } else if p == 5 {
        Bfly5(out, base, fs, m);
      } else {
        BflyGeneric(out, base, fs, m, p);
      }
    }

    /**
      * The public `transform(fft_in, fft_out)` on complex input: stage 0
      * with stride 1 writes the nfft outputs at the start of out and leaves
      * the rest of out alone.
      */
    method Transform(input: seq<Cpx>, out: array<Cpx>)
      requires Valid() && nfft >= 2 && nfft <= |input| && nfft <= out.Length
      modifies out, scratchBuf
      ensures Valid() && |Run(input, 0, 0, 1, true)| == nfft
      ensures out[..nfft] == Run(input, 0, 0, 1, true) && out[nfft..] == old(out[nfft..])
    {
      PlanChained();
      assert 1 * stageRadix[0] * stageRemainder[0] == nfft;
      TransformStage(input, 0, out, 0, 0, 1);
      RunLength(input, 0, 0, 1, true);
    }

    /**
      * The overload on real input: its leaf copy stores each sample as the
      * real part with imaginary part 0, and everything after it is the
      * complex recursion, so it is the complex transform of the lifted samples.
      */
    method TransformReal(input: seq<real>, out: array<Cpx>)
      requires Valid() && nfft >= 2 && nfft <= |input| && nfft <= out.Length
      modifies out, scratchBuf
      ensures Valid() && |Run(Lift(input), 0, 0, 1, true)| == nfft
      ensures out[..nfft] == Run(Lift(input), 0, 0, 1, true) && out[nfft..] == old(out[nfft..])
    {
      Transform(Lift(input), out);
    }
  }
}
