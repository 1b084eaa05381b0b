/**
 * `Matrix2d`: a matrix of reals held row after row in one buffer, and the
 * matrix-vector products of src/VectorMatrix.h.
 */
module Matrices {
  import opened Arith
  import opened Complex
  import opened Vectors
  import Iterators

  /**
   * The buffer offset `operator()` reads for entry `(row, col)`: row-major
   * normally, the swapped entry when the matrix is marked transposed.
   */
  function Offset(numCols: int, transpose: bool, row: int, col: int): int
  {
    if !transpose then row * numCols + col else col * numCols + row
  }

  /**
   * Row-major addressing is one-to-one onto the buffer: every in-range
   * entry has its own slot below `numRows * numCols`, the slot the row and
   * column iterators reach, and the slot gives back the row and column.
   */
  lemma OffsetIsRowMajor(numRows: int, numCols: int, row: int, col: int)
    requires 0 <= row < numRows && 0 <= col < numCols
    ensures 0 <= Offset(numCols, false, row, col) < numRows * numCols
    ensures Offset(numCols, false, row, col) / numCols == row && Offset(numCols, false, row, col) % numCols == col
    ensures Offset(numCols, false, row, col) == Iterators.LinePosition(numCols, true, row, col)
    ensures Offset(numCols, false, row, col) == Iterators.LinePosition(numCols, false, col, row)
  {
    Join(col, row, numCols, numRows);
    MulComm(row, numCols);
    DivModUnique(row * numCols + col, numCols, row, col);
  }

  /**
   * A row or column iterator set up as its constructor sets it up, over a
   * plain matrix's buffer: `[k]` along row `line` is entry `(line, k)`, and
   * down column `line` entry `(k, line)`, the entries `operator()` reads.
   */
  lemma LineIteratorReadsEntry(mat: Matrix2d, it: Iterators.RowColIterator, row: bool, line: int, k: nat)
    requires !mat.transpose && mat.numRows * mat.numCols <= |mat.vec|
    requires it.increment == (if row then 1 else mat.numCols)
    requires it.offset == Iterators.LinePosition(mat.numCols, row, line, 0)
    requires row ==> 0 <= line < mat.numRows && k < mat.numCols
    requires !row ==> 0 <= line < mat.numCols && k < mat.numRows
    ensures 0 <= it.ElementOffset(k) < |mat.vec|
    ensures row ==> it.Element(mat.vec, k) == mat.Get(line, k)
    ensures !row ==> it.Element(mat.vec, k) == mat.Get(k, line)
  {
    it.ElementOfLine(mat.numCols, row, line, 0, k);
    if row {
      OffsetIsRowMajor(mat.numRows, mat.numCols, line, k);
    } else {
      OffsetIsRowMajor(mat.numRows, mat.numCols, k, line);
    }
  }

  /** A transposed matrix reads entry `(row, col)` where the plain one reads `(col, row)`. */
  lemma TransposeSwaps(numRows: int, numCols: int, row: int, col: int)
    requires 0 <= col < numRows && 0 <= row < numCols
    ensures Offset(numCols, true, row, col) == Offset(numCols, false, col, row)
    ensures 0 <= Offset(numCols, true, row, col) < numRows * numCols
  {
    OffsetIsRowMajor(numRows, numCols, col, row);
  }

  /** The rows of an initializer list, one after another. */
  function Flatten(rows: seq<seq<real>>): (r: seq<real>)
  {
    if |rows| == 0 then [] else Flatten(rows[..|rows| - 1]) + rows[|rows| - 1]
  }

  /** All rows are `numCols` long. */
  predicate Uniform(rows: seq<seq<real>>, numCols: nat)
  {
    forall r :: 0 <= r < |rows| ==> |rows[r]| == numCols
  }

  /** Flattening one more row appends it. */
  lemma FlattenStep(rows: seq<seq<real>>, i: nat)
    requires i < |rows|
    ensures Flatten(rows[..i + 1]) == Flatten(rows[..i]) + rows[i]
  {
    assert rows[..i + 1][..i] == rows[..i];
  }

  /** A prefix of the rows flattens to no more elements than all of them. */
  lemma {:induction false} FlattenPrefix(rows: seq<seq<real>>, i: nat)
    requires i <= |rows|
    ensures |Flatten(rows[..i])| <= |Flatten(rows)|
    decreases |rows| - i
  {
    if i < |rows| {
      FlattenStep(rows, i);
      FlattenPrefix(rows, i + 1);
    } else {
      assert rows[..i] == rows;
    }
  }

  /** Uniform rows flatten row-major: entry `(r, c)` lands at `r * numCols + c`. */
  lemma {:induction false} FlattenUniform(rows: seq<seq<real>>, numCols: nat)
    requires Uniform(rows, numCols)
    ensures |Flatten(rows)| == |rows| * numCols
    ensures forall r, c :: 0 <= r < |rows| && 0 <= c < numCols ==> Flatten(rows)[r * numCols + c] == rows[r][c]
  {
    if |rows| > 0 {
      var n := |rows| - 1;
      var init := rows[..n];
      assert Uniform(init, numCols);
      FlattenUniform(init, numCols);
      assert |Flatten(rows)| == n * numCols + numCols;
      forall r, c | 0 <= r < |rows| && 0 <= c < numCols
        ensures Flatten(rows)[r * numCols + c] == rows[r][c]
      {
        if r < n {
          OffsetIsRowMajor(n, numCols, r, c);
        } else {
          assert r * numCols + c == |Flatten(init)| + c;
        }
      }
    }
  }

  /** Dot product, summed from the first term. */
  function Dot(a: seq<real>, b: seq<real>): real
    requires |a| == |b|
  {
    if |a| == 0 then 0.0 else Dot(a[..|a| - 1], b[..|b| - 1]) + a[|a| - 1] * b[|b| - 1]
  }

  /** The dot product distributes over elementwise sums. */
  lemma {:induction false} DotPlus(a: seq<real>, x: seq<real>, y: seq<real>)
    requires |a| == |x| == |y|
    ensures Dot(a, Plus(x, y)) == Dot(a, x) + Dot(a, y)
  {
    if |a| > 0 {
      var n := |a| - 1;
      assert Plus(x, y)[..n] == Plus(x[..n], y[..n]);
      DotPlus(a[..n], x[..n], y[..n]);
    }
  }

  /** Three-term dot products written out. */
  lemma Dot3(a: seq<real>, b: seq<real>)
    requires |a| == |b| == 3
    ensures Dot(a, b) == a[0] * b[0] + a[1] * b[1] + a[2] * b[2]
  {
    assert a[..2][..1] == a[..1] && b[..2][..1] == b[..1];
    assert a[..1][..0] == [] && b[..1][..0] == [];
    assert Dot(a[..1], b[..1]) == a[0] * b[0];
    assert Dot(a[..2], b[..2]) == a[0] * b[0] + a[1] * b[1];
  }

  /** Matrix times column vector, over a matrix given as its rows. */
  function MatVec(rows: seq<seq<real>>, x: seq<real>): (r: seq<real>)
    requires forall i :: 0 <= i < |rows| ==> |rows[i]| == |x|
    ensures |r| == |rows|
  {
    seq(|rows|, i requires 0 <= i < |rows| => Dot(rows[i], x))
  }

  /** The product is linear in the vector. */
  lemma MatVecPlus(rows: seq<seq<real>>, x: seq<real>, y: seq<real>)
    requires |x| == |y| && forall i :: 0 <= i < |rows| ==> |rows[i]| == |x|
    ensures MatVec(rows, Plus(x, y)) == Plus(MatVec(rows, x), MatVec(rows, y))
  {
    forall i | 0 <= i < |rows|
      ensures MatVec(rows, Plus(x, y))[i] == Plus(MatVec(rows, x), MatVec(rows, y))[i]
    {
      DotPlus(rows[i], x, y);
    }
  }

  /** Complex dot product of real coefficients with complex samples. */
  function CDot(a: seq<real>, b: seq<Cpx>): Cpx
    requires |a| == |b|
  {
    if |a| == 0 then Zero else Add(CDot(a[..|a| - 1], b[..|b| - 1]), Scale(b[|b| - 1], a[|a| - 1]))
  }

  /** The real parts of complex samples. */
  function RealParts(b: seq<Cpx>): (r: seq<real>)
    ensures |r| == |b| && forall i :: 0 <= i < |b| ==> r[i] == b[i].re
  {
    seq(|b|, i requires 0 <= i < |b| => b[i].re)
  }

  /** The imaginary parts of complex samples. */
  function ImagParts(b: seq<Cpx>): (r: seq<real>)
    ensures |r| == |b| && forall i :: 0 <= i < |b| ==> r[i] == b[i].im
  {
    seq(|b|, i requires 0 <= i < |b| => b[i].im)
  }

  /** The complex product works part by part: its real and imaginary parts are real products. */
  lemma {:induction false} CDotParts(a: seq<real>, b: seq<Cpx>)
    requires |a| == |b|
    ensures CDot(a, b) == Cpx(Dot(a, RealParts(b)), Dot(a, ImagParts(b)))
  {
    if |a| > 0 {
      var n := |a| - 1;
      CDotParts(a[..n], b[..n]);
      assert RealParts(b)[..n] == RealParts(b[..n]);
      assert ImagParts(b)[..n] == ImagParts(b[..n]);
    }
  }

  /** Matrix times complex column vector. */
  function CMatVec(rows: seq<seq<real>>, x: seq<Cpx>): (r: seq<Cpx>)
    requires forall i :: 0 <= i < |rows| ==> |rows[i]| == |x|
    ensures |r| == |rows|
  {
    seq(|rows|, i requires 0 <= i < |rows| => CDot(rows[i], x))
  }

  /**
   * The inner loop of the initializer-list constructor: the values of one
   * row are written one by one at `vecIndex` over the zeros after the rows
   * already copied.
   */
  method CopyRow(buf: seq<real>, vecIndex: nat, rowInitList: seq<real>, ghost copied: seq<real>)
    returns (r: seq<real>, next: nat)
    requires vecIndex + |rowInitList| <= |buf|
    requires buf[..vecIndex] == copied && buf[vecIndex..] == Fill(|buf| - vecIndex, 0.0)
    ensures |r| == |buf| && next == vecIndex + |rowInitList|
    ensures r[..next] == copied + rowInitList && r[next..] == Fill(|buf| - next, 0.0)
  {
    r, next := buf, vecIndex;
    var j := 0;
    while j < |rowInitList|
      invariant 0 <= j <= |rowInitList| && |r| == |buf| && next == vecIndex + j
      invariant r[..next] == copied + rowInitList[..j]
      invariant r[next..] == Fill(|buf| - next, 0.0)
    {
      r := r[next := rowInitList[j]];
      next := next + 1;
      assert rowInitList[..j + 1] == rowInitList[..j] + [rowInitList[j]];
      j := j + 1;
    }
    assert rowInitList[..j] == rowInitList;
  }

  class Matrix2d {
    var vec: seq<real>
    var scratchBuf: Scratch
    var numRows: nat
    var numCols: nat
    var transpose: bool

    /** Every entry `operator()` can be asked for lies inside the buffer. */
    predicate Addressable()
      reads this
    {
      forall r, c :: 0 <= r < numRows && 0 <= c < numCols ==> 0 <= Offset(numCols, transpose, r, c) < |vec|
    }

    /** `operator()`: entry `(row, col)`, read through the transpose flag. */
    function Get(row: int, col: int): (r: real)
      reads this
      requires 0 <= Offset(numCols, transpose, row, col) < |vec|
    {
      vec[Offset(numCols, transpose, row, col)]
    }

    /** The matrix as its rows of entries, as `operator()` reads them. */
    function Rows(): (rows: seq<seq<real>>)
      reads this
      requires Addressable()
      ensures |rows| == numRows && Uniform(rows, numCols)
      ensures forall r, c :: 0 <= r < numRows && 0 <= c < numCols ==> rows[r][c] == Get(r, c)
    {
      var v, nr, nc, t := vec, numRows, numCols, transpose;
      seq(nr, r => seq(nc, c => if 0 <= Offset(nc, t, r, c) < |v| then v[Offset(nc, t, r, c)] else 0.0))
    }

    /** A plain `row x col` matrix is addressable exactly when its buffer holds `row * col` entries or more. */
    lemma PlainAddressable()
      requires !transpose && numRows > 0 && numCols > 0
      ensures Addressable() <==> numRows * numCols <= |vec|
    {
      if numRows * numCols <= |vec| {
        forall r, c | 0 <= r < numRows && 0 <= c < numCols
          ensures 0 <= Offset(numCols, transpose, r, c) < |vec|
        {
          OffsetIsRowMajor(numRows, numCols, r, c);
        }
      }
      if Addressable() {
        var last := Offset(numCols, transpose, numRows - 1, numCols - 1);
        assert 0 <= last < |vec|;
        assert last == numRows * numCols - 1;
      }
    }

    /** A `row x col` matrix of zeros, not transposed. */
    constructor (row: nat, col: nat, scratch: Scratch?)
      ensures vec == Fill(row * col, 0.0) && numRows == row && numCols == col && !transpose
      ensures scratch == null ==> fresh(scratchBuf) && scratchBuf.items == []
      ensures scratch != null ==> scratchBuf == scratch
    {
      vec := Resized([], row * col, 0.0);
      numRows, numCols := row, col;
      transpose := false;
      scratchBuf := new Scratch();
      new;
      InitializeScratchBuf(scratch);
    }

    /**
     * From an initializer list of rows: as many rows as given and as many
     * columns as the first row has; the elements are written one after
     * another into a zeroed `numRows * numCols` buffer.  The writes must
     * stay inside that buffer.
     */
    constructor FromRows(initVals: seq<seq<real>>, scratch: Scratch?)
      requires |initVals| > 0 && |initVals[0]| > 0
      requires |Flatten(initVals)| <= |initVals| * |initVals[0]|
      ensures numRows == |initVals| && numCols == |initVals[0]| && !transpose
      ensures vec == Flatten(initVals) + Fill(numRows * numCols - |Flatten(initVals)|, 0.0)
      ensures scratch == null ==> fresh(scratchBuf) && scratchBuf.items == []
      ensures scratch != null ==> scratchBuf == scratch
    {
      var rows, cols := |initVals|, |initVals[0]|;
      var size := rows * cols;
      var buf := Resized([], size, 0.0);
      var vecIndex := 0;
      var i := 0;
      while i < rows
        invariant 0 <= i <= rows && |buf| == size
        invariant vecIndex == |Flatten(initVals[..i])| <= size
        invariant buf[..vecIndex] == Flatten(initVals[..i])
        invariant buf[vecIndex..] == Fill(size - vecIndex, 0.0)
      {
        FlattenStep(initVals, i);
        FlattenPrefix(initVals, i + 1);
        buf, vecIndex := CopyRow(buf, vecIndex, initVals[i], Flatten(initVals[..i]));
        i := i + 1;
      }
      assert initVals[..i] == initVals;
      assert buf == buf[..vecIndex] + buf[vecIndex..];
      vec := buf;
      numRows, numCols := rows, cols;
      transpose := false;
      scratchBuf := new Scratch();
      new;
      InitializeScratchBuf(scratch);
    }

    /** With rows all of the first row's length, the matrix reads back the initializer list. */
    lemma FromRowsReadsBack(initVals: seq<seq<real>>)
      requires |initVals| > 0 && Uniform(initVals, |initVals[0]|)
      requires |Flatten(initVals)| <= |initVals| * |initVals[0]|
      requires numRows == |initVals| && numCols == |initVals[0]| && !transpose
      requires vec == Flatten(initVals) + Fill(numRows * numCols - |Flatten(initVals)|, 0.0)
      ensures Addressable() && Rows() == initVals
    {
      FlattenUniform(initVals, numCols);
      assert vec == Flatten(initVals);
      forall r, c | 0 <= r < numRows && 0 <= c < numCols
        ensures 0 <= Offset(numCols, transpose, r, c) < |vec|
      {
        OffsetIsRowMajor(numRows, numCols, r, c);
      }
      var rows := Rows();
      forall r | 0 <= r < numRows
        ensures rows[r] == initVals[r]
      {
        assert |rows[r]| == |initVals[r]|;
      }
    }

    /** `initializeScratchBuf`: a fresh empty scratch buffer, or the shared one given. */
    method InitializeScratchBuf(scratch: Scratch?)
      modifies this
      ensures vec == old(vec) && numRows == old(numRows) && numCols == old(numCols) && transpose == old(transpose)
      ensures scratch == null ==> fresh(scratchBuf) && scratchBuf.items == []
      ensures scratch != null ==> scratchBuf == scratch
    {
      if scratch == null {
        scratchBuf := new Scratch();
      } else {
        scratchBuf := scratch;
      }
    }

    /** `copyToScratchBuf`: the scratch buffer becomes a copy of `from`. */
    method CopyToScratchBuf(from: seq<real>)
      modifies scratchBuf
      ensures scratchBuf.items == from
    {
      scratchBuf.items := Resized(scratchBuf.items, |from|, 0.0);
      var index := 0;
      while index < |from|
        invariant 0 <= index <= |from| && |scratchBuf.items| == |from|
        invariant scratchBuf.items[..index] == from[..index]
      {
        scratchBuf.items := scratchBuf.items[index := from[index]];
        assert scratchBuf.items[..index + 1] == scratchBuf.items[..index] + [from[index]];
        assert from[..index + 1] == from[..index] + [from[index]];
        index := index + 1;
      }
      assert scratchBuf.items == scratchBuf.items[..index];
      assert from == from[..index];
    }
  }

  /** One row of the product: the running sum `result[row] += lhs(row, col) * rhs[col]`. */
  method RowTimes(lhs: Matrix2d, row: nat, rhs: seq<real>) returns (acc: real)
    requires lhs.Addressable() && row < lhs.numRows && lhs.numCols == |rhs|
    ensures acc == Dot(lhs.Rows()[row], rhs)
  {
    ghost var entries := lhs.Rows()[row];
    acc := 0.0;
    var col := 0;
    while col < lhs.numCols
      invariant 0 <= col <= lhs.numCols
      invariant acc == Dot(entries[..col], rhs[..col])
    {
      acc := acc + lhs.Get(row, col) * rhs[col];
      assert entries[..col + 1][..col] == entries[..col];
      assert rhs[..col + 1][..col] == rhs[..col];
      col := col + 1;
    }
    assert entries[..col] == entries;
    assert rhs[..col] == rhs;
  }

  /**
   * `Matrix2d * Vector`: the rows of `lhs` dotted with the column vector
   * `rhs`, returned as a new column vector.
   */
  method Multiply(lhs: Matrix2d, rhs: Vector) returns (result: Vector)
    requires lhs.numCols == |rhs.vec| && !rhs.rowVector && lhs.Addressable()
    ensures fresh(result) && !result.rowVector
    ensures result.vec == MatVec(lhs.Rows(), rhs.vec)
  {
    result := new Vector(lhs.numRows, false, null);
    var row := 0;
    while row < lhs.numRows
      invariant 0 <= row <= lhs.numRows && |result.vec| == lhs.numRows && !result.rowVector
      invariant result.vec[..row] == MatVec(lhs.Rows(), rhs.vec)[..row]
      invariant result.vec[row..] == Fill(lhs.numRows - row, 0.0)
    {
      var sum := RowTimes(lhs, row, rhs.vec);
      result.vec := result.vec[row := result.vec[row] + sum];
      assert result.vec[..row + 1] == result.vec[..row] + [sum];
      assert MatVec(lhs.Rows(), rhs.vec)[..row + 1] == MatVec(lhs.Rows(), rhs.vec)[..row] + [sum];
      row := row + 1;
    }
    assert result.vec == result.vec[..row];
  }

  /** One row of the complex product. */
  method RowTimesComplex(lhs: Matrix2d, row: nat, rhs: seq<Cpx>) returns (acc: Cpx)
    requires lhs.Addressable() && row < lhs.numRows && lhs.numCols == |rhs|
    ensures acc == CDot(lhs.Rows()[row], rhs)
  {
    ghost var entries := lhs.Rows()[row];
    acc := Zero;
    var col := 0;
    while col < lhs.numCols
      invariant 0 <= col <= lhs.numCols
      invariant acc == CDot(entries[..col], rhs[..col])
    {
      acc := Add(acc, Scale(rhs[col], lhs.Get(row, col)));
      assert entries[..col + 1][..col] == entries[..col];
      assert rhs[..col + 1][..col] == rhs[..col];
      col := col + 1;
    }
    assert entries[..col] == entries;
    assert rhs[..col] == rhs;
  }

  /**
   * `Matrix2d * ComplexVector`: the complex samples are given with their
   * orientation flag; the result is a column of `lhs.numRows` samples.
   */
  method MultiplyComplex(lhs: Matrix2d, rhs: seq<Cpx>, rhsRowVector: bool) returns (result: seq<Cpx>, resultRowVector: bool)
    requires lhs.numCols == |rhs| && !rhsRowVector && lhs.Addressable()
    ensures !resultRowVector
    ensures result == CMatVec(lhs.Rows(), rhs)
  {
    result := seq(lhs.numRows, _ => Zero);
    resultRowVector := false;
    var row := 0;
    while row < lhs.numRows
      invariant 0 <= row <= lhs.numRows && |result| == lhs.numRows
      invariant result[..row] == CMatVec(lhs.Rows(), rhs)[..row]
      invariant forall k :: row <= k < |result| ==> result[k] == Zero
    {
      var sum := RowTimesComplex(lhs, row, rhs);
      result := result[row := Add(result[row], sum)];
      assert result[..row + 1] == result[..row] + [sum];
      assert CMatVec(lhs.Rows(), rhs)[..row + 1] == CMatVec(lhs.Rows(), rhs)[..row] + [sum];
      row := row + 1;
    }
    assert result == result[..row];
  }

  /** `{{1, 2, 3}, {4, 5, 6}} * {1, 2, 3}` is the column `{14, 32}`. */
  method ProductExample() returns (result: Vector)
    ensures result.vec == [14.0, 32.0] && !result.rowVector
  {
    var mat := new Matrix2d.FromRows([[1.0, 2.0, 3.0], [4.0, 5.0, 6.0]], null);
    mat.FromRowsReadsBack([[1.0, 2.0, 3.0], [4.0, 5.0, 6.0]]);
    var vec := new Vector.FromData([1.0, 2.0, 3.0], false, null);
    result := Multiply(mat, vec);
    Dot3([1.0, 2.0, 3.0], [1.0, 2.0, 3.0]);
    Dot3([4.0, 5.0, 6.0], [1.0, 2.0, 3.0]);
  }

  /** `{{1, 2, 3}, {4, 5, 6}} * {1, 2 + i, 3}` is the column `{14 + 2i, 32 + 5i}`. */
  method ComplexProductExample() returns (result: seq<Cpx>)
    ensures result == [Cpx(14.0, 2.0), Cpx(32.0, 5.0)]
  {
    var mat := new Matrix2d.FromRows([[1.0, 2.0, 3.0], [4.0, 5.0, 6.0]], null);
    mat.FromRowsReadsBack([[1.0, 2.0, 3.0], [4.0, 5.0, 6.0]]);
    var rowVector;
    var x := [Cpx(1.0, 0.0), Cpx(2.0, 1.0), Cpx(3.0, 0.0)];
    result, rowVector := MultiplyComplex(mat, x, false);
    ComplexRowsExample(x);
  }

  /** The two rows of the complex example dotted with `{1, 2 + i, 3}`. */
  lemma ComplexRowsExample(x: seq<Cpx>)
    requires x == [Cpx(1.0, 0.0), Cpx(2.0, 1.0), Cpx(3.0, 0.0)]
    ensures CDot([1.0, 2.0, 3.0], x) == Cpx(14.0, 2.0)
    ensures CDot([4.0, 5.0, 6.0], x) == Cpx(32.0, 5.0)
  {
    CDotParts([1.0, 2.0, 3.0], x);
    CDotParts([4.0, 5.0, 6.0], x);
    assert RealParts(x) == [1.0, 2.0, 3.0];
    assert ImagParts(x) == [0.0, 1.0, 0.0];
    Dot3([1.0, 2.0, 3.0], RealParts(x));
    Dot3([1.0, 2.0, 3.0], ImagParts(x));
    Dot3([4.0, 5.0, 6.0], RealParts(x));
    Dot3([4.0, 5.0, 6.0], ImagParts(x));
  }
}
