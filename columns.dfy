/**
  * The layout every KISS FFT butterfly works on: a block of p rows of m
  * values, stored row after row, where column u is the slots u, u + m, ...,
  * u + (p - 1) * m. A butterfly rewrites the block one column at a time,
  * each column's new values depending only on that column's old values.
  */
module Columns {

  import opened Complex
  import opened Arith

  /** Element i of s, or zero outside s. */
  function At(s: seq<Cpx>, i: int): Cpx {
    if 0 <= i < |s| then s[i] else Zero
  }

  /** Indexing a concatenation with At. */
  lemma AtConcat(a: seq<Cpx>, b: seq<Cpx>, x: nat)
    ensures At(a + b, x) == if x < |a| then At(a, x) else At(b, x - |a|)
  {
  }

  /** Column u of a block with rows of length m and p rows. */
  function Column(blk: seq<Cpx>, m: nat, p: nat, u: nat): (c: seq<Cpx>)
    ensures |c| == p
  {
    seq(p, q => At(blk, u + q * m))
  }

  /**
    * The block with vals written down a column: vals[0] at slot pos, vals[1]
    * at pos + m, and so on, slots past the end of the block being skipped.
    */
  function SetColumn(blk: seq<Cpx>, m: nat, pos: nat, vals: seq<Cpx>): (r: seq<Cpx>)
    ensures |r| == |blk|
    ensures forall i {:trigger InColumn(pos, m, |vals|, i)} :: 0 <= i < |blk| ==>
      r[i] == if InColumn(pos, m, |vals|, i) then vals[RowOf(pos, m, |vals|, i)] else blk[i]
    decreases |vals|
  {
    if vals == [] then blk
    else
      assert forall i :: 0 <= i < |blk| ==>
        (InColumn(pos, m, |vals|, i) <==> i == pos || InColumn(pos + m, m, |vals[1..]|, i));
      SetColumn(if pos < |blk| then blk[pos := vals[0]] else blk, m, pos + m, vals[1..])
  }

  /** Slot i is one of the n slots pos, pos + m, pos + 2 * m, ... */
  predicate InColumn(pos: nat, m: nat, n: nat, i: int)
    decreases n
  {
    n > 0 && (i == pos || InColumn(pos + m, m, n - 1, i))
  }

  /** The last of those n slots that is slot i, counted from pos. */
  function RowOf(pos: nat, m: nat, n: nat, i: int): (q: nat)
    requires InColumn(pos, m, n, i)
    ensures q < n
    decreases n
  {
    if InColumn(pos + m, m, n - 1, i) then RowOf(pos + m, m, n - 1, i) + 1 else 0
  }

  /**
    * With a positive stride, slot i is among the n column slots from pos
    * exactly when it lies at a multiple of m past pos, fewer than n rows on;
    * its row is that multiple.
    */
  lemma {:induction false} InColumnClosed(pos: nat, m: nat, n: nat, i: int)
    requires m > 0
    ensures InColumn(pos, m, n, i) <==> pos <= i && (i - pos) % m == 0 && (i - pos) / m < n
    ensures InColumn(pos, m, n, i) ==> RowOf(pos, m, n, i) == (i - pos) / m
    decreases n
  {
    if n > 0 {
      InColumnClosed(pos + m, m, n - 1, i);
      if pos + m <= i {
        DivModUnique(i - pos, m, (i - (pos + m)) / m + 1, (i - (pos + m)) % m);
      } else if pos < i {
        DivModUnique(i - pos, m, 0, i - pos);
      }
    }
  }

  /**
    * The block after columns 0 .. k - 1 have been rewritten by f, in that
    * order; f is given the column's values and the column's number.
    */
  function Done(blk: seq<Cpx>, m: nat, p: nat, f: (seq<Cpx>, nat) -> seq<Cpx>, k: nat): (r: seq<Cpx>)
    ensures |r| == |blk|
    decreases k
  {
    if k == 0 then blk
    else SetColumn(Done(blk, m, p, f, k - 1), m, k - 1, f(Column(blk, m, p, k - 1), k - 1))
  }

  /** Slot u + q * m lies in column u, row q. */
  lemma SlotOf(u: nat, q: nat, m: nat)
    requires u < m
    ensures (u + q * m) % m == u && (u + q * m) / m == q
  {
    DivModUnique(u + q * m, m, q, u);
  }

  /** A slot of a p-row block is u + q * m for its column u and row q. */
  lemma SlotInBlock(u: nat, q: nat, m: nat, p: nat)
    requires u < m && q < p
    ensures u + q * m < p * m
  {
    MulLeq(q + 1, p, m);
  }

  /** Row q of column u is slot u + q * m. */
  lemma ColumnAt(blk: seq<Cpx>, m: nat, p: nat, u: nat, q: nat)
    requires u < m && q < p && |blk| == p * m
    ensures u + q * m < |blk| && Column(blk, m, p, u)[q] == blk[u + q * m]
  {
    SlotInBlock(u, q, m, p);
  }

  /** Row q of column u of the block of p rows of m at a[base ..]. */
  lemma ColumnOfArray(a: seq<Cpx>, base: nat, m: nat, p: nat, u: nat, q: nat)
    requires u < m && q < p && base + p * m <= |a|
    ensures base + u + q * m < |a| && Column(a[base..base + p * m], m, p, u)[q] == a[base + u + q * m]
  {
    ColumnAt(a[base..base + p * m], m, p, u, q);
  }

  /** Slot i of a column update: the new value if i is in column u and a filled row, else the old one. */
  lemma SetColumnAt(blk: seq<Cpx>, m: nat, u: nat, vals: seq<Cpx>, i: nat)
    requires u < m && i < |blk|
    ensures SetColumn(blk, m, u, vals)[i] == if i % m == u && i / m < |vals| then vals[i / m] else blk[i]
  {
    InColumnClosed(u, m, |vals|, i);
    DivModUnique(i, m, i / m, i % m);
    if u <= i && (i - u) % m == 0 {
      DivModUnique(i, m, (i - u) / m, u);
    } else if i % m == u {
      DivModUnique(i - u, m, i / m, 0);
    }
  }

  /**
    * Column by column: after k columns, the slots of a column u < k hold
    * f of u's original values, and every other slot is untouched.
    */
  lemma {:induction false} DoneAt(blk: seq<Cpx>, m: nat, p: nat, f: (seq<Cpx>, nat) -> seq<Cpx>, k: nat, i: nat)
    requires 0 < m && k <= m && i < |blk|
    ensures var u := i % m; var vals := f(Column(blk, m, p, u), u);
            Done(blk, m, p, f, k)[i] == if u < k && i / m < |vals| then vals[i / m] else blk[i]
    decreases k
  {
    if k > 0 {
      DoneAt(blk, m, p, f, k - 1, i);
      SetColumnAt(Done(blk, m, p, f, k - 1), m, k - 1, f(Column(blk, m, p, k - 1), k - 1), i);
    }
  }

  /** Column k is still the original one after columns 0 .. k - 1 were rewritten. */
  lemma DoneColumn(blk: seq<Cpx>, m: nat, p: nat, f: (seq<Cpx>, nat) -> seq<Cpx>, k: nat, q: nat)
    requires k < m && k + q * m < |blk|
    ensures Done(blk, m, p, f, k)[k + q * m] == blk[k + q * m]
  {
    DoneAt(blk, m, p, f, k, k + q * m);
    SlotOf(k, q, m);
  }

  /**
    * After all m columns, row q of column u holds f's row q for u: the
    * columns are rewritten independently of each other.
    */
  lemma DoneAllColumns(blk: seq<Cpx>, m: nat, p: nat, f: (seq<Cpx>, nat) -> seq<Cpx>, u: nat, q: nat)
    requires u < m && q < p && |blk| == p * m
    requires |f(Column(blk, m, p, u), u)| == p
    ensures u + q * m < |blk|
    ensures Done(blk, m, p, f, m)[u + q * m] == f(Column(blk, m, p, u), u)[q]
  {
    SlotInBlock(u, q, m, p);
    DoneAt(blk, m, p, f, m, u + q * m);
    SlotOf(u, q, m);
  }

  /**
    * Column k is still the original one when its turn comes, so reading it
    * from the block, rewriting it by f and writing it back gives the next
    * state of the column-by-column rewrite.
    */
  lemma DoneStep(blk: seq<Cpx>, m: nat, p: nat, f: (seq<Cpx>, nat) -> seq<Cpx>, k: nat,
                 cur: seq<Cpx>, xs: seq<Cpx>, ys: seq<Cpx>, next: seq<Cpx>)
    requires k < m && |blk| == p * m && cur == Done(blk, m, p, f, k)
    requires xs == Column(cur, m, p, k) && ys == f(xs, k) && next == SetColumn(cur, m, k, ys)
    ensures next == Done(blk, m, p, f, k + 1)
  {
    forall q | 0 <= q < p
      ensures Column(cur, m, p, k)[q] == Column(blk, m, p, k)[q]
    {
      ColumnAt(blk, m, p, k, q);
      DoneColumn(blk, m, p, f, k, q);
    }
    assert xs == Column(blk, m, p, k);
  }

  /** Reads column u of the block of p rows of m starting at out[base]. */
  method ReadColumn(out: array<Cpx>, base: nat, m: nat, p: nat, u: nat) returns (xs: seq<Cpx>)
    requires u < m && base + p * m <= out.Length
    ensures xs == Column(out[base..base + p * m], m, p, u)
  {
    ghost var blk := out[base..base + p * m];
    xs := [];
    var idx := base + u;
    for q := 0 to p
      invariant idx == base + u + q * m
      invariant xs == Column(blk, m, p, u)[..q]
    {
      ColumnAt(blk, m, p, u, q);
      assert Column(blk, m, p, u)[..q + 1] == xs + [blk[u + q * m]];
      xs := xs + [out[idx]];
      idx := idx + m;
    }
  }

  /** The array a, once orig, with v written at base and every other slot as it was. */
  ghost predicate Replaced(a: seq<Cpx>, orig: seq<Cpx>, base: nat, v: seq<Cpx>) {
    && base + |v| <= |a| == |orig|
    && a[base..base + |v|] == v
    && a[..base] == orig[..base] && a[base + |v|..] == orig[base + |v|..]
  }

  /** Replacing v at base by w of the same length, after v replaced what was there, replaces it by w. */
  lemma ReplacedTwice(a: seq<Cpx>, b: seq<Cpx>, c: seq<Cpx>, base: nat, v: seq<Cpx>, w: seq<Cpx>)
    requires Replaced(b, a, base, v) && Replaced(c, b, base, w) && |v| == |w|
    ensures Replaced(c, a, base, w)
  {
  }

  /** Writes ys down column u of the block of p == |ys| rows of m starting at out[base]. */
  method WriteColumn(out: array<Cpx>, base: nat, m: nat, p: nat, u: nat, ys: seq<Cpx>)
    requires u < m && |ys| == p && base + p * m <= out.Length
    modifies out
    ensures Replaced(out[..], old(out[..]), base, SetColumn(old(out[base..base + p * m]), m, u, ys))
  {
    var idx: nat := base + u;
    for q := 0 to |ys|
      invariant ColumnWriting(out[..], old(out[..]), base, m, p, u, ys, q, idx)
    {
      ghost var cur := out[..];
      WriteStep(cur, old(out[..]), base, m, p, u, ys, q, idx);
      out[idx] := ys[q];
      assert out[..] == cur[idx := ys[q]];
      idx := idx + m;
    }
  }

  /**
    * The state of WriteColumn's loop after q rows: slot idx is row q of
    * column u, and writing the rest of ys from there gives the column
    * update of the original block, with nothing outside the block changed.
    */
  ghost predicate ColumnWriting(a: seq<Cpx>, orig: seq<Cpx>, base: nat, m: nat, p: nat, u: nat, ys: seq<Cpx>,
                                q: nat, idx: nat)
  {
    && u < m && |ys| == p && q <= p && base + p * m <= |a| == |orig|
    && idx == base + u + q * m
    && SetColumn(a[base..base + p * m], m, idx - base, ys[q..]) == SetColumn(orig[base..base + p * m], m, u, ys)
    && a[..base] == orig[..base] && a[base + p * m..] == orig[base + p * m..]
  }

  /** Writing row q of the column at idx keeps WriteColumn's loop state. */
  lemma WriteStep(a: seq<Cpx>, orig: seq<Cpx>, base: nat, m: nat, p: nat, u: nat, ys: seq<Cpx>, q: nat, idx: nat)
    requires q < |ys| && ColumnWriting(a, orig, base, m, p, u, ys, q, idx)
    ensures base <= idx < |a| && ColumnWriting(a[idx := ys[q]], orig, base, m, p, u, ys, q + 1, idx + m)
  {
    SlotInBlock(u, q, m, p);
    assert ys[q..][1..] == ys[q + 1..];
    var b := a[idx := ys[q]];
    assert b[base..base + p * m] == a[base..base + p * m][idx - base := ys[q]];
    assert b[..base] == a[..base];
    assert b[base + p * m..] == a[base + p * m..];
  }

  /**
    * The array a, once orig, with columns 0 .. k - 1 of the block of p rows
    * of m at base rewritten by f and every slot outside the block as it was.
    */
  ghost predicate ColumnsDone(a: seq<Cpx>, orig: seq<Cpx>, base: nat, m: nat, p: nat,
                              f: (seq<Cpx>, nat) -> seq<Cpx>, k: nat)
  {
    base + p * m <= |orig| && Replaced(a, orig, base, Done(orig[base..base + p * m], m, p, f, k))
  }

  /**
    * One step of a column-by-column rewrite done in place: with columns
    * 0 .. k - 1 already rewritten, writing f of column k back down column k
    * leaves columns 0 .. k rewritten.
    */
  method RewriteColumn(out: array<Cpx>, base: nat, m: nat, p: nat, k: nat, ys: seq<Cpx>,
                       ghost orig: seq<Cpx>, ghost f: (seq<Cpx>, nat) -> seq<Cpx>)
    requires k < m && |ys| == p && ColumnsDone(out[..], orig, base, m, p, f, k)
    requires ys == f(Column(out[base..base + p * m], m, p, k), k)
    modifies out
    ensures ColumnsDone(out[..], orig, base, m, p, f, k + 1)
  {
    ghost var cur := out[base..base + p * m];
    WriteColumn(out, base, m, p, k, ys);
    DoneStep(orig[base..base + p * m], m, p, f, k, cur, Column(cur, m, p, k), ys, out[base..base + p * m]);
  }

  /** After a call that kept a[..mid], the slice lo .. hi is the old lo .. mid followed by the new mid .. hi. */
  lemma SliceAppend(a: seq<Cpx>, b: seq<Cpx>, lo: nat, mid: nat, hi: nat)
    requires lo <= mid <= hi <= |a| && mid <= |b| && a[..mid] == b[..mid]
    ensures a[lo..hi] == b[lo..mid] + a[mid..hi]
  {
    assert a[lo..mid] == a[..mid][lo..];
    assert b[lo..mid] == b[..mid][lo..];
  }

  /** Keeping a[..hi] keeps every shorter prefix. */
  lemma PrefixKept(a: seq<Cpx>, b: seq<Cpx>, lo: nat, hi: nat)
    requires lo <= hi <= |a| && hi <= |b| && a[..hi] == b[..hi]
    ensures a[..lo] == b[..lo]
  {
    assert a[..lo] == a[..hi][..lo];
    assert b[..lo] == b[..hi][..lo];
  }

  /** Keeping a[lo..] keeps every shorter suffix. */
  lemma SuffixKept(a: seq<Cpx>, b: seq<Cpx>, lo: nat, hi: nat)
    requires lo <= hi <= |a| && |a| == |b| && a[lo..] == b[lo..]
    ensures a[hi..] == b[hi..]
  {
    assert a[hi..] == a[lo..][hi - lo..];
    assert b[hi..] == b[lo..][hi - lo..];
  }
}
