/** The spiral fill of Array/arr4.c, for a matrix of any size N.

    `Value` is the reference definition: walk the border clockwise from the top left
    corner, then the same one layer in. The four shrinking loops of the source are
    proved to compute it, and it is proved to be a bijection whose consecutive values
    are neighbours. */
module Spiral {

  datatype Cell = Cell(row: int, col: int)

  predicate Inside(n: nat, c: Cell) {
    0 <= c.row < n && 0 <= c.col < n
  }

  /** The number at (row, col) of an n by n spiral. */
  function Value(n: nat, row: int, col: int): (v: int)
    requires Inside(n, Cell(row, col))
    decreases n
  {
    if row == 0 then 1 + col
    else if col == n - 1 then n + row
    else if row == n - 1 then 2 * n - 1 + (n - 1 - col)
    else if col == 0 then 3 * n - 2 + (n - 1 - row)
    else 4 * (n - 1) + Value(n - 2, row - 1, col - 1)
  }

  /** N * N, counted border by border. */
  function Area(n: nat): nat {
    if n < 2 then n else 4 * (n - 1) + Area(n - 2)
  }

  lemma {:induction false} AreaIsSquare(n: nat)
    ensures Area(n) == n * n
  {
    if n >= 2 {
      AreaIsSquare(n - 2);
      assert n * n == (n - 2) * (n - 2) + 4 * (n - 1);
    }
  }

  /** Where v stands: the inverse of Value. */
  function Place(n: nat, v: int): (c: Cell)
    requires 1 <= v <= Area(n)
    decreases n
  {
    if v <= n then Cell(0, v - 1)
    else if v <= 2 * n - 1 then Cell(v - n, n - 1)
    else if v <= 3 * n - 2 then Cell(n - 1, 3 * n - 2 - v)
    else if v <= 4 * (n - 1) then Cell(4 * n - 3 - v, 0)
    else
      var c := Place(n - 2, v - 4 * (n - 1));
      Cell(c.row + 1, c.col + 1)
  }

  /** Every cell holds one of 1..N*N, and Place finds the cell from the value. */
  lemma {:induction false} ValueThenPlace(n: nat, row: int, col: int)
    requires Inside(n, Cell(row, col))
    ensures 1 <= Value(n, row, col) <= Area(n)
    ensures Place(n, Value(n, row, col)) == Cell(row, col)
    decreases n
  {
    if 0 < row < n - 1 && 0 < col < n - 1 {
      ValueThenPlace(n - 2, row - 1, col - 1);
    } else {
      BorderThenPlace(n, row, col);
    }
  }

  lemma BorderThenPlace(n: nat, row: int, col: int)
    requires Inside(n, Cell(row, col)) && !(0 < row < n - 1 && 0 < col < n - 1)
    ensures 1 <= Value(n, row, col) <= (if n == 1 then 1 else 4 * (n - 1)) <= Area(n)
    ensures Place(n, Value(n, row, col)) == Cell(row, col)
  {
    assert n >= 2 ==> Area(n) == 4 * (n - 1) + Area(n - 2);
  }

  /** Every one of 1..N*N stands in a cell. */
  lemma {:induction false} PlaceThenValue(n: nat, v: int)
    requires 1 <= v <= Area(n)
    ensures Inside(n, Place(n, v))
    ensures Value(n, Place(n, v).row, Place(n, v).col) == v
    decreases n
  {
    if n >= 2 && v > 4 * (n - 1) {
      PlaceThenValue(n - 2, v - 4 * (n - 1));
    }
  }

  predicate Neighbours(a: Cell, b: Cell) {
    (a.row == b.row && (a.col == b.col + 1 || b.col == a.col + 1))
    || (a.col == b.col && (a.row == b.row + 1 || b.row == a.row + 1))
  }

  /** v and v + 1 stand side by side, for odd and even N alike. */
  lemma {:induction false} ConsecutiveAreNeighbours(n: nat, v: int)
    requires 1 <= v < Area(n)
    ensures Neighbours(Place(n, v), Place(n, v + 1))
    decreases n
  {
    if n >= 3 && v > 4 * (n - 1) {
      ConsecutiveAreNeighbours(n - 2, v - 4 * (n - 1));
    } else if n >= 3 && v == 4 * (n - 1) {
      assert Place(n - 2, 1) == Cell(0, 0);
    }
  }

  // ---------------------------------------------------------------------------
  // Layers

  /** How many cells lie outside the k-th layer. */
  function Outside(n: nat, k: nat): int {
    if k == 0 then 0 else Outside(n, k - 1) + 4 * (n - 2 * k + 1)
  }

  predicate InLayer(n: nat, k: nat, c: Cell) {
    k <= c.row < n - k && k <= c.col < n - k
  }

  /** From layer k on, the spiral is the one of the inner square, counted from there. */
  lemma {:induction false} ValueFromLayer(n: nat, k: nat, row: int, col: int)
    requires InLayer(n, k, Cell(row, col))
    ensures Value(n, row, col) == Outside(n, k) + Value(n - 2 * k, row - k, col - k)
    decreases k
  {
    if k > 0 {
      ValueFromLayer(n, k - 1, row, col);
    }
  }

  lemma {:induction false} AreaFromLayer(n: nat, k: nat)
    requires 2 * k <= n
    ensures Area(n) == Outside(n, k) + Area(n - 2 * k)
  {
    if k > 0 {
      AreaFromLayer(n, k - 1);
    }
  }

  // ---------------------------------------------------------------------------
  // The program

  /** The cells written so far, in order, are those of 1, 2, 3, ... */
  ghost predicate InOrder(n: nat, written: seq<Cell>, value: int) {
    && |written| == value - 1
    && forall j :: 0 <= j < |written| ==>
         Inside(n, written[j]) && Value(n, written[j].row, written[j].col) == j + 1
  }

  /** The first `value - 1` cells of the spiral hold their numbers. */
  ghost predicate FilledBelow(n: nat, matrix: array2<int>, value: int)
    requires matrix.Length0 == n && matrix.Length1 == n
    reads matrix
  {
    forall r, c :: 0 <= r < n && 0 <= c < n && Value(n, r, c) < value ==> matrix[r, c] == Value(n, r, c)
  }

  /** One assignment of the source: matrix[row][col] = value++. */
  method Write(n: nat, matrix: array2<int>, row: int, col: int, value: int, ghost written: seq<Cell>)
    returns (next: int, ghost written': seq<Cell>)
    requires matrix.Length0 == n && matrix.Length1 == n && Inside(n, Cell(row, col))
    requires value == Value(n, row, col)
    requires FilledBelow(n, matrix, value) && InOrder(n, written, value)
    modifies matrix
    ensures next == value + 1 && written' == written + [Cell(row, col)]
    ensures FilledBelow(n, matrix, next) && InOrder(n, written', next)
  {
    forall r, c | 0 <= r < n && 0 <= c < n && Value(n, r, c) == value
      ensures r == row && c == col
    {
      ValueThenPlace(n, r, c);
      ValueThenPlace(n, row, col);
    }
    matrix[row, col] := value;
    next := value + 1;
    written' := written + [Cell(row, col)];
  }

  /** The values on the four sides of layer k. */
  lemma TopSide(n: nat, k: nat, i: int)
    requires 2 * k < n && k <= i < n - k
    ensures Value(n, k, i) == Outside(n, k) + 1 + (i - k)
  {
    ValueFromLayer(n, k, k, i);
  }

  lemma RightSide(n: nat, k: nat, i: int)
    requires 2 * k < n && k < i < n - k
    ensures Value(n, i, n - 1 - k) == Outside(n, k) + (n - 2 * k) + (i - k)
  {
    ValueFromLayer(n, k, i, n - 1 - k);
  }

  lemma BottomSide(n: nat, k: nat, i: int)
    requires 2 * k < n && k <= i < n - 1 - k
    ensures Value(n, n - 1 - k, i) == Outside(n, k) + 2 * (n - 2 * k) - 1 + (n - k - 1 - i)
  {
    ValueFromLayer(n, k, n - 1 - k, i);
  }

  lemma LeftSide(n: nat, k: nat, i: int)
    requires 2 * k < n && k < i < n - 1 - k
    ensures Value(n, i, k) == Outside(n, k) + 3 * (n - 2 * k) - 2 + (n - k - 1 - i)
  {
    ValueFromLayer(n, k, i, k);
  }

  /** Four loops walk one border clockwise: one pass of the outer loop, on layer k. */
  method FillLayer(n: nat, ghost k: nat, matrix: array2<int>,
                   left: int, top: int, right: int, bottom: int, value: int, ghost written: seq<Cell>)
    returns (left': int, top': int, right': int, bottom': int, value': int, ghost written': seq<Cell>)
    requires matrix.Length0 == n && matrix.Length1 == n && 2 * k < n
    requires left == top == k && right == bottom == n - 1 - k && value == Outside(n, k) + 1
    requires FilledBelow(n, matrix, value) && InOrder(n, written, value)
    modifies matrix
    ensures left' == top' == k + 1 && right' == bottom' == n - 2 - k
    ensures value' == (if 2 * (k + 1) <= n then Outside(n, k + 1) else Area(n)) + 1
    ensures FilledBelow(n, matrix, value') && InOrder(n, written', value')
  {
    left', top', right', bottom', value', written' := left, top, right, bottom, value, written;
    ghost var base, s := Outside(n, k), n - 2 * k;
    var i := left';
    while i <= right'
      invariant k <= i <= n - k && value' == base + 1 + (i - k)
      invariant FilledBelow(n, matrix, value') && InOrder(n, written', value')
    {
      TopSide(n, k, i);
      value', written' := Write(n, matrix, top', i, value', written');
      i := i + 1;
    }
    top' := top' + 1;
    i := top';
    while i <= bottom'
      invariant k + 1 <= i <= n - k && value' == base + s + (i - k)
      invariant FilledBelow(n, matrix, value') && InOrder(n, written', value')
    {
      RightSide(n, k, i);
      value', written' := Write(n, matrix, i, right', value', written');
      i := i + 1;
    }
    right' := right' - 1;
    i := right';
    while i >= left'
      invariant k - 1 <= i <= n - 2 - k && value' == base + 2 * s - 1 + (s - 1 - (i - k))
      invariant FilledBelow(n, matrix, value') && InOrder(n, written', value')
    {
      BottomSide(n, k, i);
      value', written' := Write(n, matrix, bottom', i, value', written');
      i := i - 1;
    }
    bottom' := bottom' - 1;
    i := bottom';
    while i >= top'
      invariant s >= 2 ==> k <= i <= n - 2 - k && value' == base + 3 * s - 2 + (s - 1 - (i - k))
      invariant s == 1 ==> i == k - 1 && value' == base + 2
      invariant FilledBelow(n, matrix, value') && InOrder(n, written', value')
    {
      LeftSide(n, k, i);
      value', written' := Write(n, matrix, i, left', value', written');
      i := i - 1;
    }
    left' := left' + 1;
    AfterLayer(n, k);
  }

  /** The outer loop runs while numbers are left. */
  method Fill(n: nat) returns (matrix: array2<int>, ghost written: seq<Cell>)
    ensures fresh(matrix) && Holds(n, matrix)
    ensures |written| == n * n
    ensures forall j :: 0 <= j < |written| ==>
              Inside(n, written[j]) && Value(n, written[j].row, written[j].col) == j + 1
  {
    matrix := new int[n, n];
    var left, top, right, bottom, value := 0, 0, n - 1, n - 1, 1;
    written := [];
    ghost var k: nat := 0;
    var last := n * n;
    AreaIsSquare(n);
    NothingBelowOne(n, matrix);
    while value <= last
      invariant left == top == k && right == bottom == n - 1 - k && 2 * k <= n + 1
      invariant value == (if 2 * k <= n then Outside(n, k) else Area(n)) + 1
      invariant FilledBelow(n, matrix, value) && InOrder(n, written, value)
      decreases n + 1 - 2 * k
    {
      LayerLeft(n, k);
      left, top, right, bottom, value, written :=
        FillLayer(n, k, matrix, left, top, right, bottom, value, written);
      k := k + 1;
    }
    Finished(n, k);
    forall r, c | 0 <= r < n && 0 <= c < n
      ensures matrix[r, c] == Value(n, r, c)
    {
      ValueThenPlace(n, r, c);
    }
  }

  lemma NothingBelowOne(n: nat, matrix: array2<int>)
    requires matrix.Length0 == n && matrix.Length1 == n
    ensures FilledBelow(n, matrix, 1)
  {
    forall r, c | 0 <= r < n && 0 <= c < n
      ensures Value(n, r, c) >= 1
    {
      ValueThenPlace(n, r, c);
    }
  }

  /** While numbers are left there is a layer left. */
  lemma LayerLeft(n: nat, k: nat)
    requires 2 * k <= n + 1 && (if 2 * k <= n then Outside(n, k) else Area(n)) + 1 <= Area(n)
    ensures 2 * k < n
  {
    if 2 * k <= n {
      AreaFromLayer(n, k);
    }
  }

  lemma AfterLayer(n: nat, k: nat)
    requires 2 * k < n
    ensures 2 * (k + 1) <= n ==> Outside(n, k + 1) == Outside(n, k) + 4 * (n - 2 * k - 1)
    ensures 2 * (k + 1) > n ==> Area(n) == Outside(n, k) + 1
  {
    AreaFromLayer(n, k);
  }

  lemma Finished(n: nat, k: nat)
    requires 2 * k <= n + 1 && (if 2 * k <= n then Outside(n, k) else Area(n)) + 1 > Area(n)
    ensures (if 2 * k <= n then Outside(n, k) else Area(n)) == Area(n)
  {
    if 2 * k <= n {
      AreaFromLayer(n, k);
    }
  }

  ghost predicate Occurs(n: nat, matrix: array2<int>, v: int)
    requires matrix.Length0 == n && matrix.Length1 == n
    reads matrix
  {
    exists a: Cell :: Inside(n, a) && matrix[a.row, a.col] == v
  }

  ghost predicate Holds(n: nat, matrix: array2<int>)
    reads matrix
  {
    && matrix.Length0 == n && matrix.Length1 == n
    && forall r, c :: 0 <= r < n && 0 <= c < n ==> matrix[r, c] == Value(n, r, c)
  }

  /** What Fill leaves behind is a bijection from the cells to 1..N*N. */
  lemma FilledIsBijection(n: nat, matrix: array2<int>)
    requires Holds(n, matrix)
    ensures forall a: Cell :: Inside(n, a) ==> 1 <= matrix[a.row, a.col] <= n * n
    ensures forall v :: 1 <= v <= n * n ==> Occurs(n, matrix, v)
    ensures forall a: Cell, b: Cell :: Inside(n, a) && Inside(n, b) && a != b ==>
              matrix[a.row, a.col] != matrix[b.row, b.col]
  {
    AreaIsSquare(n);
    forall a: Cell | Inside(n, a)
      ensures 1 <= matrix[a.row, a.col] <= Area(n) && Place(n, matrix[a.row, a.col]) == a
    {
      ValueThenPlace(n, a.row, a.col);
    }
    forall v | 1 <= v <= Area(n)
      ensures Occurs(n, matrix, v)
    {
      PlaceThenValue(n, v);
      assert Inside(n, Place(n, v));
    }
  }

  /** Consecutive numbers stand side by side in it. */
  lemma FilledIsAWalk(n: nat, matrix: array2<int>, a: Cell, b: Cell)
    requires Holds(n, matrix) && Inside(n, a) && Inside(n, b)
    requires matrix[b.row, b.col] == matrix[a.row, a.col] + 1
    ensures Neighbours(a, b)
  {
    ValueThenPlace(n, a.row, a.col);
    ValueThenPlace(n, b.row, b.col);
    ConsecutiveAreNeighbours(n, matrix[a.row, a.col]);
  }
}
