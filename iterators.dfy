/**
 * The two iterators over a matrix buffer.  An iterator's position in the
 * buffer (`iterator` in src/Matrix2dIterator.h and src/RowColIterator.h)
 * is modelled as an integer offset from the start of the buffer; the
 * buffer itself appears only where an iterator is dereferenced.
 */
module Iterators {
  import opened Arith
  import opened Optional

  /** Where a Matrix2dIterator stands: traversal row and column, and buffer offset. */
  datatype Place = Place(row: int, col: int, offset: int)

  /**
   * The shape of one walk: the increments it moves by and the extent of its
   * rows.  Places, steps and the index along the walk depend on nothing else.
   */
  datatype Walk = Walk(rowIncrement: int, colIncrement: int, entireRowIncrement: int, numRows: int, numCols: int)
  {
    /** The increments fit together: a row's worth of column steps and one row step make a whole-row jump. */
    predicate Shape()
    {
      numCols > 0 && rowIncrement == entireRowIncrement - (numCols - 1) * colIncrement
    }

    /** A place on the walk: the column is in range and the offset is the one its row and column stand for. */
    predicate Tracks(p: Place)
    {
      0 <= p.col < numCols && p.offset == p.row * entireRowIncrement + p.col * colIncrement
    }

    /** The index of a place along the walk. */
    function Serial(p: Place): int
    {
      p.row * numCols + p.col
    }

    /** The place with index `s` along the walk. */
    function PlaceAt(s: int): Place
      requires numCols > 0
    {
      Place(s / numCols, s % numCols, (s / numCols) * entireRowIncrement + (s % numCols) * colIncrement)
    }

    /** `++`: the next column, or the start of the next row. */
    function Next(p: Place): Place
    {
      if p.col < numCols - 1 then Place(p.row, p.col + 1, p.offset + colIncrement)
      else Place(p.row + 1, 0, p.offset + rowIncrement)
    }

    /** `--`: the previous column, or the end of the previous row. */
    function Prev(p: Place): Place
    {
      if p.col > 0 then Place(p.row, p.col - 1, p.offset - colIncrement)
      else Place(p.row - 1, numCols - 1, p.offset - rowIncrement)
    }

    /** `k` applications of `++`. */
    function Advance(p: Place, k: nat): Place
    {
      if k == 0 then p else Next(Advance(p, k - 1))
    }

    /** `k` applications of `--`. */
    function Retreat(p: Place, k: nat): Place
    {
      if k == 0 then p else Prev(Retreat(p, k - 1))
    }

    /** `q` whole-row jumps: the row moves by `q`, the offset by `q` whole-row increments. */
    function RowJump(p: Place, q: int): Place
    {
      Place(p.row + q, p.col, p.offset + q * entireRowIncrement)
    }

    /** The place with index `s` is on the walk and has index `s`. */
    lemma PlaceAtTracks(s: int)
      requires numCols > 0
      ensures Tracks(PlaceAt(s)) && Serial(PlaceAt(s)) == s
    {
      assert s == (s / numCols) * numCols + s % numCols;
    }

    /** A place on the walk is the place of its own index. */
    lemma TracksUnique(p: Place)
      requires Tracks(p)
      ensures PlaceAt(Serial(p)) == p
    {
      DivModUnique(Serial(p), numCols, p.row, p.col);
    }

    /** `++` keeps a place on the walk and adds one to its index. */
    lemma NextTracks(p: Place)
      requires Shape() && Tracks(p)
      ensures Tracks(Next(p)) && Serial(Next(p)) == Serial(p) + 1
    {
      var r, c := p.row, p.col;
      if c < numCols - 1 {
        assert (c + 1) * colIncrement == c * colIncrement + colIncrement;
      } else {
        assert (r + 1) * entireRowIncrement == r * entireRowIncrement + entireRowIncrement;
        assert (r + 1) * numCols == r * numCols + numCols;
      }
    }

    /** `--` keeps a place on the walk and takes one from its index. */
    lemma PrevTracks(p: Place)
      requires Shape() && Tracks(p)
      ensures Tracks(Prev(p)) && Serial(Prev(p)) == Serial(p) - 1
    {
      var r, c := p.row, p.col;
      if c > 0 {
        assert (c - 1) * colIncrement == c * colIncrement - colIncrement;
      } else {
        assert (r - 1) * entireRowIncrement == r * entireRowIncrement - entireRowIncrement;
        assert (r - 1) * numCols == r * numCols - numCols;
      }
    }

    /** `++` moves one index along the walk. */
    lemma NextIsPlaceAt(p: Place)
      requires Shape() && Tracks(p)
      ensures Next(p) == PlaceAt(Serial(p) + 1)
    {
      NextTracks(p);
      TracksUnique(Next(p));
    }

    /** `--` moves one index back along the walk. */
    lemma PrevIsPlaceAt(p: Place)
      requires Shape() && Tracks(p)
      ensures Prev(p) == PlaceAt(Serial(p) - 1)
    {
      PrevTracks(p);
      TracksUnique(Prev(p));
    }

    /** On the walk, `--` undoes `++` and `++` undoes `--`. */
    lemma PrevNext(p: Place)
      requires Shape() && Tracks(p)
      ensures Prev(Next(p)) == p && Next(Prev(p)) == p
    {
      var s := Serial(p);
      NextIsPlaceAt(p);
      PrevIsPlaceAt(p);
      PlaceAtTracks(s + 1);
      PlaceAtTracks(s - 1);
      PrevIsPlaceAt(PlaceAt(s + 1));
      NextIsPlaceAt(PlaceAt(s - 1));
      TracksUnique(p);
    }

    /** `k` increments move `k` indices along the walk. */
    lemma {:induction false} AdvanceIsPlaceAt(p: Place, k: nat)
      requires Shape() && Tracks(p)
      ensures Advance(p, k) == PlaceAt(Serial(p) + k)
    {
      if k == 0 {
        TracksUnique(p);
      } else {
        AdvanceIsPlaceAt(p, k - 1);
        PlaceAtTracks(Serial(p) + k - 1);
        NextIsPlaceAt(PlaceAt(Serial(p) + k - 1));
      }
    }

    /** `k` decrements move `k` indices back along the walk. */
    lemma {:induction false} RetreatIsPlaceAt(p: Place, k: nat)
      requires Shape() && Tracks(p)
      ensures Retreat(p, k) == PlaceAt(Serial(p) - k)
    {
      if k == 0 {
        TracksUnique(p);
      } else {
        var s := Serial(p) - (k - 1);
        RetreatIsPlaceAt(p, k - 1);
        PlaceAtTracks(s);
        PrevIsPlaceAt(PlaceAt(s));
        var t := s - 1;
        assert t == Serial(p) - k;
        assert Retreat(p, k) == PlaceAt(t);
      }
    }

    /** A whole-row jump moves a row's worth of indices along the walk, to index `s`. */
    lemma RowJumpIsPlaceAt(p: Place, q: int, s: int)
      requires Tracks(p) && s == Serial(p) + q * numCols
      ensures RowJump(p, q) == PlaceAt(s)
    {
      var r := RowJump(p, q);
      assert r.offset == (p.row + q) * entireRowIncrement + p.col * colIncrement;
      assert Serial(r) == s;
      TracksUnique(r);
    }

    /** `+= n` (whole-row jumps, then single steps) lands where `n` increments do. */
    lemma AddIsRepeatedIncrement(p: Place, n: nat)
      requires Shape() && Tracks(p)
      ensures Advance(RowJump(p, n / numCols), n % numCols) == Advance(p, n)
      ensures Advance(p, n) == PlaceAt(Serial(p) + n)
    {
      var q, m := n / numCols, n % numCols;
      DivModSplit(n, numCols);
      var a := Serial(p) + q * numCols;
      RowJumpIsPlaceAt(p, q, a);
      PlaceAtTracks(a);
      AdvanceIsPlaceAt(RowJump(p, q), m);
      AdvanceIsPlaceAt(p, n);
      var b := a + m;
      assert b == Serial(p) + n;
      assert Advance(RowJump(p, q), m) == PlaceAt(b);
      assert Advance(p, n) == PlaceAt(b);
    }

    /** `-= n` (whole-row jumps back, then single steps) lands where `n` decrements do. */
    lemma SubIsRepeatedDecrement(p: Place, n: nat)
      requires Shape() && Tracks(p)
      ensures Retreat(RowJump(p, -(n / numCols)), n % numCols) == Retreat(p, n)
      ensures Retreat(p, n) == PlaceAt(Serial(p) - n)
    {
      var q, m := n / numCols, n % numCols;
      DivModSplit(n, numCols);
      var qc := q * numCols;
      assert (-q) * numCols == -qc;
      var a := Serial(p) - qc;
      RowJumpIsPlaceAt(p, -q, a);
      PlaceAtTracks(a);
      RetreatIsPlaceAt(RowJump(p, -q), m);
      RetreatIsPlaceAt(p, n);
      var b := a - m;
      assert b == Serial(p) - n;
      assert Retreat(RowJump(p, -q), m) == PlaceAt(b);
      assert Retreat(p, n) == PlaceAt(b);
    }
    /**
     * `k` increments from `begin` reach walk index `k`, so `it - begin == k`:
     * offset `k` on a row-first walk, and on a column-first walk of a
     * `rows x cols` matrix the column-major offset `(k % rows) * cols + k / rows`.
     */
    lemma WalkFromBegin(k: nat)
      requires Shape()
      ensures Serial(Advance(Place(0, 0, 0), k)) == k
      ensures entireRowIncrement == numCols && colIncrement == 1 ==> Advance(Place(0, 0, 0), k).offset == k
      ensures entireRowIncrement == 1 ==> Advance(Place(0, 0, 0), k).offset == (k % numCols) * colIncrement + k / numCols
    {
      AdvanceIsPlaceAt(Place(0, 0, 0), k);
      PlaceAtTracks(k);
      assert (k / numCols) * numCols + k % numCols == k;
    }

    /**
     * Advanced once per element, `begin` reaches row `numRows`, column 0:
     * it compares equal to the end iterator.  Its offset is `numRows *
     * entireRowIncrement`, the end of the buffer on a row-first walk only.
     */
    lemma WalkReachesEnd()
      requires Shape() && numRows >= 0
      ensures Advance(Place(0, 0, 0), numRows * numCols) == Place(numRows, 0, numRows * entireRowIncrement)
    {
      AdvanceIsPlaceAt(Place(0, 0, 0), numRows * numCols);
      DivModUnique(numRows * numCols, numCols, numRows, 0);
    }

    /** On the walk, the place before the end is the last element: walk index `numRows * numCols - 1`. */
    lemma StepBackFromEnd()
      requires Shape() && Tracks(Place(numRows, 0, numRows * entireRowIncrement))
      ensures Prev(Place(numRows, 0, numRows * entireRowIncrement)) == PlaceAt(numRows * numCols - 1)
    {
      PrevIsPlaceAt(Place(numRows, 0, numRows * entireRowIncrement));
    }
  }

  /**
   * The whole-row loop of `+=` and `-=` as written, `while (diff >= numCols)
   * diff -= numCols`: the number of passes before it stops, or None when it
   * has not stopped within `bound` passes.
   */
  function RowJumpsAsWritten(diff: int, numCols: int, bound: nat): (r: Option<nat>)
    decreases bound
  {
    if diff < numCols then Some(0)
    else if bound == 0 then None
    else match RowJumpsAsWritten(diff - numCols, numCols, bound - 1)
      case None => None
      case Some(n) => Some(n + 1)
  }

  /** On a walk with columns the loop stops after diff / numCols passes, leaving diff % numCols. */
  lemma {:induction false} RowJumpsStop(diff: int, numCols: int, bound: nat)
    requires diff >= 0 && numCols > 0 && diff / numCols <= bound
    ensures RowJumpsAsWritten(diff, numCols, bound) == Some(diff / numCols)
    decreases bound
  {
    if diff < numCols {
      DivModUnique(diff, numCols, 0, diff);
    } else {
      var rest := diff - numCols;
      DivModUnique(rest, numCols, rest / numCols, rest % numCols);
      DivModUnique(diff, numCols, rest / numCols + 1, rest % numCols);
      RowJumpsStop(rest, numCols, bound - 1);
    }
  }

  /**
   * On a walk with no columns `diff >= numCols` holds for every diff >= 0
   * and each pass subtracts nothing, so the loop does not stop within any
   * number of passes.
   */
  lemma {:induction false} RowJumpsNeverStopWithoutColumns(diff: int, bound: nat)
    requires diff >= 0
    ensures RowJumpsAsWritten(diff, 0, bound) == None
    decreases bound
  {
    if bound > 0 {
      RowJumpsNeverStopWithoutColumns(diff, bound - 1);
    }
  }

  /**
   * Walks a row-major buffer either row by row or column by column.  A
   * column-first walk is a row-first walk over the transposed shape: its
   * "rows" are the matrix columns and its "columns" the matrix rows, so
   * only the three increments tell the two orders apart.
   */
  class Matrix2dIterator {
    const rowIncrement: int
    const colIncrement: int
    const entireRowIncrement: int
    const numRows: int
    const numCols: int
    var row: int
    var col: int
    var offset: int


    function Layout(): Walk
    {
      Walk(rowIncrement, colIncrement, entireRowIncrement, numRows, numCols)
    }

    /** `serialLoc`: the iterator's index along its walk. */
    function SerialLoc(): int
      reads this
    {
      Layout().Serial(State())
    }

    function State(): Place
      reads this
    {
      Place(row, col, offset)
    }

    /**
     * The constructor.  Row-first walks the matrix rows with unit steps.
     * Column-first walks with the roles swapped: a column step of `cols`
     * moves down a matrix column and the row step of `1 - (rows - 1) * cols`
     * returns to the top of the next one.  The end iterator stands at row
     * `numRows`, column 0, and points at the end of the buffer.
     */
    constructor (vecLength: nat, rows: nat, cols: nat, end: bool, traverseRowsFirst: bool)
      ensures traverseRowsFirst ==>
        numRows == rows && numCols == cols && rowIncrement == 1 && colIncrement == 1 && entireRowIncrement == cols
      ensures !traverseRowsFirst ==>
        numRows == cols && numCols == rows && colIncrement == cols
        && rowIncrement == 1 - (rows - 1) * cols && entireRowIncrement == 1
      ensures rows > 0 && cols > 0 ==> Layout().Shape()
      ensures State() == if end then Place(numRows, 0, vecLength) else Place(0, 0, 0)
    {
      if traverseRowsFirst {
        numRows, numCols := rows, cols;
        rowIncrement, colIncrement := 1, 1;
        entireRowIncrement := cols;
      } else {
        numRows, numCols := cols, rows;
        colIncrement := cols;
        rowIncrement := 1 - (rows - 1) * cols;
        entireRowIncrement := 1;
      }
      if end {
        offset := vecLength;
        row, col := numRows, 0;
      } else {
        offset := 0;
        row, col := 0, 0;
      }
    }

    /**
     * The constructor with the end iterator's offset corrected to the one
     * its row and column stand for, `numRows * entireRowIncrement`: the end
     * of the buffer for a row-first walk, but offset `cols` for a
     * column-first one, which is where `++` from the last element arrives.
     */
    constructor Corrected(rows: nat, cols: nat, end: bool, traverseRowsFirst: bool)
      ensures traverseRowsFirst ==>
        numRows == rows && numCols == cols && rowIncrement == 1 && colIncrement == 1 && entireRowIncrement == cols
      ensures !traverseRowsFirst ==>
        numRows == cols && numCols == rows && colIncrement == cols
        && rowIncrement == 1 - (rows - 1) * cols && entireRowIncrement == 1
      ensures rows > 0 && cols > 0 ==> Layout().Shape() && Layout().Tracks(State())
      ensures end ==> row == numRows && col == 0 && offset == (if traverseRowsFirst then rows * cols else cols)
      ensures !end ==> State() == Place(0, 0, 0)
    {
      if traverseRowsFirst {
        numRows, numCols := rows, cols;
        rowIncrement, colIncrement := 1, 1;
        entireRowIncrement := cols;
      } else {
        numRows, numCols := cols, rows;
        colIncrement := cols;
        rowIncrement := 1 - (rows - 1) * cols;
        entireRowIncrement := 1;
      }
      if end {
        offset := if traverseRowsFirst then rows * cols else cols;
        row, col := if traverseRowsFirst then rows else cols, 0;
      } else {
        offset := 0;
        row, col := 0, 0;
      }
    }

    /** The copy constructor and `operator=`: every field copied. */
    constructor Copy(other: Matrix2dIterator)
      ensures rowIncrement == other.rowIncrement && colIncrement == other.colIncrement
      ensures entireRowIncrement == other.entireRowIncrement
      ensures numRows == other.numRows && numCols == other.numCols
      ensures State() == other.State()
    {
      rowIncrement, colIncrement := other.rowIncrement, other.colIncrement;
      entireRowIncrement := other.entireRowIncrement;
      numRows, numCols := other.numRows, other.numCols;
      row, col, offset := other.row, other.col, other.offset;
    }

    /** Same walk: the same increments and shape. */
    predicate SameWalk(other: Matrix2dIterator)
      reads this, other
    {
      rowIncrement == other.rowIncrement && colIncrement == other.colIncrement
      && entireRowIncrement == other.entireRowIncrement
      && numRows == other.numRows && numCols == other.numCols
    }

    /** Pre-increment. */
    method Increment()
      modifies this
      ensures State() == Layout().Next(old(State()))
    {
      if col < numCols - 1 {
        col := col + 1;
        offset := offset + colIncrement;
      } else {
        col := 0;
        row := row + 1;
        offset := offset + rowIncrement;
      }
    }

    /** Post-increment: a copy of the old iterator, this one advanced. */
    method PostIncrement() returns (result: Matrix2dIterator)
      modifies this
      ensures fresh(result) && result.SameWalk(this)
      ensures result.State() == old(State()) && State() == Layout().Next(old(State()))
    {
      result := new Matrix2dIterator.Copy(this);
      Increment();
    }

    /** Pre-decrement. */
    method Decrement()
      modifies this
      ensures State() == Layout().Prev(old(State()))
    {
      if col > 0 {
        col := col - 1;
        offset := offset - colIncrement;
      } else {
        col := numCols - 1;
        row := row - 1;
        offset := offset - rowIncrement;
      }
    }

    /** Post-decrement: a copy of the old iterator, this one stepped back. */
    method PostDecrement() returns (result: Matrix2dIterator)
      modifies this
      ensures fresh(result) && result.SameWalk(this)
      ensures result.State() == old(State()) && State() == Layout().Prev(old(State()))
    {
      result := new Matrix2dIterator.Copy(this);
      Decrement();
    }

    /**
     * `+= rhs` for `rhs > 0`: whole-row jumps while a row's worth of steps
     * remains, then single increments.  With no columns the jumps would
     * never end, so the walk must have at least one.
     */
    method AddAssign(rhs: int)
      requires rhs > 0 && numCols > 0
      modifies this
      ensures State() == Layout().Advance(Layout().RowJump(old(State()), rhs / numCols), rhs % numCols)
    {
      ghost var start := State();
      ghost var jumps := 0;
      var diff := rhs;
      while diff >= numCols
        invariant diff >= 0 && jumps >= 0 && diff == rhs - jumps * numCols
        invariant State() == Layout().RowJump(start, jumps)
      {
        offset := offset + entireRowIncrement;
        row := row + 1;
        diff := diff - numCols;
        jumps := jumps + 1;
      }
      DivModUnique(rhs, numCols, jumps, diff);
      ghost var jumped := State();
      while diff > 0
        invariant 0 <= diff <= rhs % numCols
        invariant State() == Layout().Advance(jumped, rhs % numCols - diff)
      {
        Increment();
        diff := diff - 1;
      }
    }

    /** `-= rhs` for `rhs > 0`: whole-row jumps back, then single decrements. */
    method SubAssign(rhs: int)
      requires rhs > 0 && numCols > 0
      modifies this
      ensures State() == Layout().Retreat(Layout().RowJump(old(State()), -(rhs / numCols)), rhs % numCols)
    {
      ghost var start := State();
      ghost var jumps := 0;
      var diff := rhs;
      while diff >= numCols
        invariant diff >= 0 && jumps >= 0 && diff == rhs - jumps * numCols
        invariant State() == Layout().RowJump(start, -jumps)
      {
        offset := offset - entireRowIncrement;
        row := row - 1;
        diff := diff - numCols;
        jumps := jumps + 1;
      }
      DivModUnique(rhs, numCols, jumps, diff);
      ghost var jumped := State();
      while diff > 0
        invariant 0 <= diff <= rhs % numCols
        invariant State() == Layout().Retreat(jumped, rhs % numCols - diff)
      {
        Decrement();
        diff := diff - 1;
      }
    }

    /** `operator[]`: the offset `index` places along the walk, through a copy advanced by `+=`. */
    method Subscript(index: int) returns (elementOffset: int)
      requires index > 0 && numCols > 0
      ensures Layout().Shape() && Layout().Tracks(State()) ==> elementOffset == Layout().PlaceAt(SerialLoc() + index).offset
    {
      var tempIt := new Matrix2dIterator.Copy(this);
      tempIt.AddAssign(index);
      elementOffset := tempIt.offset;
      if Layout().Shape() && Layout().Tracks(State()) {
        Layout().AddIsRepeatedIncrement(State(), index);
      }
    }

    /** `operator-`: the difference of the walk indices. */
    function Minus(rhs: Matrix2dIterator): int
      reads this, rhs
    {
      SerialLoc() - rhs.SerialLoc()
    }

    /** `==` compares row and column only. */
    predicate Equal(rhs: Matrix2dIterator)
      reads this, rhs
    {
      row == rhs.row && col == rhs.col
    }

    predicate NotEqual(rhs: Matrix2dIterator)
      reads this, rhs
    {
      row != rhs.row || col != rhs.col
    }

    /** `<`, `>`, `<=` and `>=` compare walk indices. */
    predicate Less(rhs: Matrix2dIterator)
      reads this, rhs
    {
      SerialLoc() < rhs.SerialLoc()
    }

    predicate Greater(rhs: Matrix2dIterator)
      reads this, rhs
    {
      SerialLoc() > rhs.SerialLoc()
    }

    predicate LessEq(rhs: Matrix2dIterator)
      reads this, rhs
    {
      SerialLoc() <= rhs.SerialLoc()
    }

    predicate GreaterEq(rhs: Matrix2dIterator)
      reads this, rhs
    {
      SerialLoc() >= rhs.SerialLoc()
    }

    /**
     * For two iterators on the same walk with their columns in range, `==`
     * holds exactly when the walk indices agree, `!=` is its negation, and
     * the difference is zero exactly then.
     */
    lemma EqualIffSameIndex(rhs: Matrix2dIterator)
      requires SameWalk(rhs) && 0 <= col < numCols && 0 <= rhs.col < numCols
      ensures Equal(rhs) <==> SerialLoc() == rhs.SerialLoc()
      ensures NotEqual(rhs) <==> !Equal(rhs)
      ensures Equal(rhs) <==> Minus(rhs) == 0 && LessEq(rhs) && GreaterEq(rhs)
    {
      if SerialLoc() == rhs.SerialLoc() {
        DivModUnique(SerialLoc(), numCols, row, col);
        DivModUnique(SerialLoc(), numCols, rhs.row, rhs.col);
      }
    }

  }

  /**
   * Stepping back from a column-first end iterator as constructed: for a
   * matrix of more than one row the offset lands past the buffer of
   * `rows * cols` elements.
   */
  method ColumnEndStepBackAsWritten(rows: nat, cols: nat) returns (offset: int)
    requires rows > 1 && cols > 0
    ensures offset == rows * cols - 1 + (rows - 1) * cols && offset >= rows * cols
  {
    var it := new Matrix2dIterator(rows * cols, rows, cols, true, false);
    it.Decrement();
    offset := it.offset;
  }

  /**
   * Stepping back from a corrected column-first end iterator lands on the
   * last element of the column-major walk, matrix entry `(rows - 1, cols - 1)`
   * at offset `rows * cols - 1`.
   */
  method ColumnEndStepBackCorrected(rows: nat, cols: nat) returns (offset: int)
    requires rows > 0 && cols > 0
    ensures offset == rows * cols - 1
  {
    var it := new Matrix2dIterator.Corrected(rows, cols, true, false);
    it.Decrement();
    offset := it.offset;
    assert offset == cols - (1 - (rows - 1) * cols);
  }

  /** C++ integer division on signed operands: the quotient truncated toward zero. */
  function TruncDiv(a: int, b: int): int
    requires b != 0
  {
    var m := if a < 0 then -a else a;
    var n := if b < 0 then -b else b;
    if (a < 0) == (b < 0) then m / n else -(m / n)
  }

  /** Truncating division undoes multiplication, whatever the signs. */
  lemma TruncDivExact(q: int, b: int)
    requires b != 0
    ensures TruncDiv(q * b, b) == q
  {
    var a := q * b;
    var n := if b < 0 then -b else b;
    var m := if a < 0 then -a else a;
    var k := if q < 0 then -q else q;
    assert m == k * n by {
      if b < 0 {
        assert a == (-q) * n;
      } else {
        assert a == q * n;
      }
    }
    DivModUnique(m, n, k, 0);
    if q > 0 {
      MulLt(0, q, n);
    } else if q < 0 {
      MulLt(0, -q, n);
    }
  }

  /**
   * The buffer offset of element `k` of a matrix line: along row `line`
   * the element in column `k`, down column `line` the element in row `k`,
   * in a row-major buffer of `numCols` columns.
   */
  function LinePosition(numCols: int, row: bool, line: int, k: int): int
  {
    if row then line * numCols + k else k * numCols + line
  }

  /** One element along a line is one increment further in the buffer. */
  lemma LineStep(numCols: int, row: bool, line: int, start: int, k: int)
    ensures LinePosition(numCols, row, line, start) + k * (if row then 1 else numCols)
      == LinePosition(numCols, row, line, start + k)
  {
    if !row {
      assert (start + k) * numCols == start * numCols + k * numCols;
    }
  }

  /**
   * Walks one row or one column of a row-major buffer: a row with unit
   * steps, a column with steps of a whole row.
   */
  class RowColIterator {
    var offset: int
    const increment: int

    /** From a position in the buffer and an increment (default 1). */
    constructor FromIterator(position: int, inc: int)
      ensures offset == position && increment == inc
    {
      offset := position;
      increment := inc;
    }

    /**
     * The iterator over row or column `rowColNum` of a `numRows x numCols`
     * matrix, at its first element, or just past its last one when `end`.
     */
    constructor (numRows: nat, numCols: nat, row: bool, rowColNum: nat, end: bool)
      ensures increment == if row then 1 else numCols
      ensures offset == LinePosition(numCols, row, rowColNum, if !end then 0 else if row then numCols else numRows)
    {
      var position := 0;
      var numElements, inc;
      if row {
        position := position + rowColNum * numCols;
        inc := 1;
        numElements := numCols;
      } else {
        position := position + rowColNum;
        inc := numCols;
        numElements := numRows;
      }
      if end {
        position := position + numElements * inc;
      }
      offset, increment := position, inc;
    }

    /** The copy constructor and `operator=`. */
    constructor Copy(other: RowColIterator)
      ensures offset == other.offset && increment == other.increment
    {
      offset := other.offset;
      increment := other.increment;
    }

    /** The buffer offset `operator[](index)` refers to. */
    function ElementOffset(index: int): int
      reads this
    {
      offset + index * increment
    }

    /** `operator[]`: the element `index` steps along. */
    function Element(buf: seq<real>, index: nat): (r: real)
      reads this
      requires 0 <= ElementOffset(index) < |buf|
      ensures r == buf[ElementOffset(index)]
    {
      buf[offset + index * increment]
    }

    /**
     * Element `k` of a line iterator is element `start + k` of its line:
     * on the iterator the matrix constructor builds, matrix entry
     * `(rowColNum, k)` of a row, `(k, rowColNum)` of a column.
     */
    lemma ElementOfLine(numCols: int, row: bool, line: int, start: int, k: int)
      requires increment == (if row then 1 else numCols)
      requires offset == LinePosition(numCols, row, line, start)
      ensures ElementOffset(k) == LinePosition(numCols, row, line, start + k)
    {
      LineStep(numCols, row, line, start, k);
    }

    /** Pre-increment: one element along. */
    method Increment()
      modifies this
      ensures offset == old(offset) + increment
    {
      offset := offset + increment;
    }

    /** Pre-decrement: one element back. */
    method Decrement()
      modifies this
      ensures offset == old(offset) - increment
    {
      offset := offset - increment;
    }

    /** `+= rhs`: `rhs` elements along. */
    method AddAssign(rhs: int)
      modifies this
      ensures offset == old(ElementOffset(rhs))
    {
      offset := offset + rhs * increment;
    }

    /** `-= rhs`: `rhs` elements back. */
    method SubAssign(rhs: int)
      modifies this
      ensures offset == old(ElementOffset(-rhs))
    {
      offset := offset - rhs * increment;
    }

    /**
     * Post-increment as written: it adds `increment` with `+=`, which
     * multiplies by the increment again, so a column iterator moves
     * `increment * increment` positions, not one element.
     */
    method PostIncrementAsWritten() returns (result: RowColIterator)
      modifies this
      ensures fresh(result) && result.offset == old(offset) && result.increment == increment
      ensures offset == old(offset) + increment * increment
    {
      result := new RowColIterator.Copy(this);
      AddAssign(increment);
    }

    /** Post-decrement as written: moves back `increment * increment` positions. */
    method PostDecrementAsWritten() returns (result: RowColIterator)
      modifies this
      ensures fresh(result) && result.offset == old(offset) && result.increment == increment
      ensures offset == old(offset) - increment * increment
    {
      result := new RowColIterator.Copy(this);
      SubAssign(increment);
    }

    /** Post-increment corrected: a copy of the old iterator, this one moved one element along. */
    method PostIncrement() returns (result: RowColIterator)
      modifies this
      ensures fresh(result) && result.offset == old(offset) && result.increment == increment
      ensures offset == old(ElementOffset(1))
    {
      result := new RowColIterator.Copy(this);
      AddAssign(1);
    }

    /** Post-decrement corrected: a copy of the old iterator, this one moved one element back. */
    method PostDecrement() returns (result: RowColIterator)
      modifies this
      ensures fresh(result) && result.offset == old(offset) && result.increment == increment
      ensures offset == old(ElementOffset(-1))
    {
      result := new RowColIterator.Copy(this);
      SubAssign(1);
    }

    /** The free `operator+(it, n)` and `operator+(n, it)`: a copy moved `n` elements along. */
    method Plus(n: int) returns (it: RowColIterator)
      ensures fresh(it) && it.increment == increment && it.offset == ElementOffset(n)
      ensures increment != 0 ==> it.Minus(this) == n
    {
      it := new RowColIterator.Copy(this);
      it.AddAssign(n);
      if increment != 0 {
        TruncDivExact(n, increment);
      }
    }

    /** The free `operator-(it, n)`: a copy moved `n` elements back. */
    method MinusSteps(n: int) returns (it: RowColIterator)
      ensures fresh(it) && it.increment == increment && it.offset == ElementOffset(-n)
      ensures increment != 0 ==> it.Minus(this) == -n
    {
      it := new RowColIterator.Copy(this);
      it.SubAssign(n);
      if increment != 0 {
        TruncDivExact(-n, increment);
      }
    }

    /** `operator-`: the buffer distance over the increment, truncated toward zero. */
    function Minus(rhs: RowColIterator): int
      reads this, rhs
      requires increment != 0
    {
      TruncDiv(offset - rhs.offset, increment)
    }

    /** `==` as written: compares the elements the iterators point at, not their positions. */
    predicate Equal(buf: seq<real>, rhs: RowColIterator)
      reads this, rhs
      requires 0 <= offset < |buf| && 0 <= rhs.offset < |buf|
    {
      buf[offset] == buf[rhs.offset]
    }

    /** `<` as written: compares the elements pointed at. */
    predicate Less(buf: seq<real>, rhs: RowColIterator)
      reads this, rhs
      requires 0 <= offset < |buf| && 0 <= rhs.offset < |buf|
    {
      buf[offset] < buf[rhs.offset]
    }

    /** `!=` as written: the elements pointed at differ. */
    predicate NotEqual(buf: seq<real>, rhs: RowColIterator)
      reads this, rhs
      requires 0 <= offset < |buf| && 0 <= rhs.offset < |buf|
    {
      buf[offset] != buf[rhs.offset]
    }

    /** `>` as written: compares the elements pointed at. */
    predicate Greater(buf: seq<real>, rhs: RowColIterator)
      reads this, rhs
      requires 0 <= offset < |buf| && 0 <= rhs.offset < |buf|
    {
      buf[offset] > buf[rhs.offset]
    }

    /** `<=` as written: compares the elements pointed at. */
    predicate LessEq(buf: seq<real>, rhs: RowColIterator)
      reads this, rhs
      requires 0 <= offset < |buf| && 0 <= rhs.offset < |buf|
    {
      buf[offset] <= buf[rhs.offset]
    }

    /** `>=` as written: compares the elements pointed at. */
    predicate GreaterEq(buf: seq<real>, rhs: RowColIterator)
      reads this, rhs
      requires 0 <= offset < |buf| && 0 <= rhs.offset < |buf|
    {
      buf[offset] >= buf[rhs.offset]
    }

    /** `==` corrected: the same position. */
    predicate SamePlace(rhs: RowColIterator)
      reads this, rhs
    {
      offset == rhs.offset
    }

    /** `<` corrected: an earlier position along the line. */
    predicate Before(rhs: RowColIterator)
      reads this, rhs
    {
      if increment > 0 then offset < rhs.offset else offset > rhs.offset
    }

    /**
     * On one line (same increment, a whole number of steps apart) the
     * corrected comparisons agree with the distance: equal exactly when
     * it is zero, earlier exactly when it is negative.
     */
    lemma PositionsMatchDistance(rhs: RowColIterator)
      requires increment == rhs.increment && increment != 0
      requires (offset - rhs.offset) % increment == 0
      ensures SamePlace(rhs) <==> Minus(rhs) == 0
      ensures Before(rhs) <==> Minus(rhs) < 0
    {
      var d := offset - rhs.offset;
      var q := d / increment;
      DivModSplit(d, if increment > 0 then increment else -increment);
      assert d == q * increment;
      TruncDivExact(q, increment);
      if q > 0 {
        MulLt(0, q, if increment > 0 then increment else -increment);
      } else if q < 0 {
        MulLt(0, -q, if increment > 0 then increment else -increment);
      }
    }
  }

  /**
   * Post-increment as written on a column iterator of a 3-column matrix
   * lands 9 positions along, three rows down, where the next element of
   * the column is one row down at offset 3.
   */
  method ColumnPostIncrementAsWritten() returns (offset: int, nextElement: int)
    ensures offset == 9 && nextElement == 3
  {
    var it := new RowColIterator(3, 3, false, 0, false);
    nextElement := it.ElementOffset(1);
    var previous := it.PostIncrementAsWritten();
    offset := it.offset;
  }

  /** Corrected post-increment on the same column iterator lands on the next element. */
  method ColumnPostIncrementCorrected() returns (offset: int, nextElement: int)
    ensures offset == nextElement == 3
  {
    var it := new RowColIterator(3, 3, false, 0, false);
    nextElement := it.ElementOffset(1);
    var previous := it.PostIncrement();
    offset := it.offset;
  }

  /**
   * Value comparison as written: in the matrix `{{1, 1}, {2, 3}}` the first
   * two iterators along row 0 hold equal values, so `==` reports them equal
   * although they stand at different positions, `!=` reports them not
   * different, and `<`, `>` treat neither as before the other, while `<=`
   * and `>=` both hold.
   */
  method RowValueCompareAsWritten() returns (equal: bool, notEqual: bool, less: bool, greater: bool,
                                             lessEq: bool, greaterEq: bool, samePlace: bool, before: bool)
    ensures equal && !notEqual && !less && !greater && lessEq && greaterEq
    ensures !samePlace && before
  {
    var buf := [1.0, 1.0, 2.0, 3.0];
    var first := new RowColIterator(2, 2, true, 0, false);
    var second := first.Plus(1);
    equal, notEqual := first.Equal(buf, second), first.NotEqual(buf, second);
    less, greater := first.Less(buf, second), first.Greater(buf, second);
    lessEq, greaterEq := first.LessEq(buf, second), first.GreaterEq(buf, second);
    samePlace, before := first.SamePlace(second), first.Before(second);
  }
}
