/** Array layout operations the estimator relies on: C-order flattening of a
    stack of rows, `np.repeat` along the first axis, elementwise mapping and
    column access to a rows-of-columns matrix. */
module Layout {

  /** Row-major concatenation of blocks: what `reshape(-1)` does to a
      C-ordered (block, element) array. */
  function Concat<T>(parts: seq<seq<T>>): seq<T>
  {
    if |parts| == 0 then [] else parts[0] + Concat(parts[1..])
  }

  /** Every block has length `n`. */
  predicate Uniform<T>(parts: seq<seq<T>>, n: nat)
  {
    forall i :: 0 <= i < |parts| ==> |parts[i]| == n
  }

  /** A matrix stored as `rows` rows of `cols` entries each. */
  predicate IsMatrix<T>(m: seq<seq<T>>, rows: nat, cols: nat)
  {
    |m| == rows && Uniform(m, cols)
  }

  /** Elementwise application, as numpy's vectorised functions do. */
  function Map<T, U>(f: T -> U, xs: seq<T>): (r: seq<U>)
    ensures |r| == |xs|
    ensures forall i {:trigger r[i]} :: 0 <= i < |xs| ==> r[i] == f(xs[i])
  {
    seq(|xs|, i requires 0 <= i < |xs| => f(xs[i]))
  }

  lemma MulAtLeast(d: int, n: int)
    requires d >= 1 && n > 0
    ensures d * n >= n
  {
  }

  /** A position below `k * n` splits into a quotient below `k` and a
      remainder below `n` that rebuild it. */
  lemma DivModBounds(r: int, n: nat, k: nat)
    requires 0 <= r < k * n
    ensures 0 < n && r == (r / n) * n + r % n && 0 <= r % n < n && 0 <= r / n < k
  {
    var i := r / n;
    if i >= k {
      MulAtLeast(i - k + 1, n);
    }
  }

  /** Flattening blocks of equal length `n` yields `|parts| * n` elements. */
  lemma {:induction false} ConcatLength<T>(parts: seq<seq<T>>, n: nat)
    requires Uniform(parts, n)
    ensures |Concat(parts)| == |parts| * n
  {
    if |parts| > 0 {
      ConcatLength(parts[1..], n);
      assert |parts| * n == n + |parts[1..]| * n;
    }
  }

  /** Element `j` of block `i` lands at position `i * n + j` of the flattening. */
  lemma {:induction false} ConcatAt<T>(parts: seq<seq<T>>, n: nat, i: nat, j: nat)
    requires Uniform(parts, n)
    requires i < |parts| && j < n
    ensures i * n + j < |Concat(parts)|
    ensures Concat(parts)[i * n + j] == parts[i][j]
  {
    ConcatLength(parts, n);
    ConcatLength(parts[1..], n);
    assert Concat(parts) == parts[0] + Concat(parts[1..]);
    if i > 0 {
      ConcatAt(parts[1..], n, i - 1, j);
      assert i * n + j == n + ((i - 1) * n + j);
    }
  }

  /** Position `r` of the flattening of blocks of length `n` is element
      `r % n` of block `r / n`. */
  lemma ConcatAtPosition<T>(parts: seq<seq<T>>, n: nat, r: nat)
    requires Uniform(parts, n)
    requires r < |parts| * n
    ensures 0 < n && r / n < |parts| && r % n < n
    ensures r < |Concat(parts)| && Concat(parts)[r] == parts[r / n][r % n]
  {
    DivModBounds(r, n, |parts|);
    var i, j := r / n, r % n;
    ConcatAt(parts, n, i, j);
  }

  /** `np.repeat(rows, n, axis=0)`: every row repeated `n` times in place. */
  function Repeat<T>(rows: seq<T>, n: nat): seq<T>
  {
    Concat(seq(|rows|, i requires 0 <= i < |rows| => seq(n, _ => rows[i])))
  }

  /** Repeating every row `n` times yields `|rows| * n` rows. */
  lemma RepeatLength<T>(rows: seq<T>, n: nat)
    ensures |Repeat(rows, n)| == |rows| * n
  {
    ConcatLength(seq(|rows|, i requires 0 <= i < |rows| => seq(n, _ => rows[i])), n);
  }

  /** Row `r` of a repeated matrix is original row `r / n`. */
  lemma RepeatAt<T>(rows: seq<T>, n: nat, r: nat)
    requires r < |rows| * n
    ensures 0 < n && r / n < |rows|
    ensures r < |Repeat(rows, n)| && Repeat(rows, n)[r] == rows[r / n]
  {
    var blocks := seq(|rows|, i requires 0 <= i < |rows| => seq(n, _ => rows[i]));
    ConcatAtPosition(blocks, n, r);
    assert blocks[r / n][r % n] == rows[r / n];
  }

  /** A `rows` x `cols` matrix holding `v` everywhere (`np.zeros`). */
  function Filled<T>(rows: nat, cols: nat, v: T): (m: seq<seq<T>>)
    ensures IsMatrix(m, rows, cols)
    ensures forall s, j :: 0 <= s < rows && 0 <= j < cols ==> m[s][j] == v
  {
    seq(rows, _ => seq(cols, _ => v))
  }

  /** `m[:, j]`. */
  function Column<T>(m: seq<seq<T>>, j: nat): (c: seq<T>)
    requires forall s :: 0 <= s < |m| ==> j < |m[s]|
    ensures |c| == |m|
    ensures forall s {:trigger c[s]} :: 0 <= s < |m| ==> c[s] == m[s][j]
  {
    seq(|m|, s requires 0 <= s < |m| => m[s][j])
  }

  /** Column `j` of `m` exists and reads `col`, row by row. */
  predicate ColumnIs<T(==)>(m: seq<seq<T>>, j: nat, col: seq<T>)
  {
    |col| == |m| && forall s :: 0 <= s < |m| ==> j < |m[s]| && m[s][j] == col[s]
  }

  /** The matrix whose columns are `cols`, in order: what writing `cols[v]`
      into column `v` of a zero `rows` x `|cols|` array leaves behind. */
  function FromColumns<T(==)>(cols: seq<seq<T>>, rows: nat): (m: seq<seq<T>>)
    requires Uniform(cols, rows)
    ensures IsMatrix(m, rows, |cols|)
    ensures forall v {:trigger cols[v]} :: 0 <= v < |cols| ==> ColumnIs(m, v, cols[v])
  {
    seq(rows, s requires 0 <= s < rows => seq(|cols|, v requires 0 <= v < |cols| => cols[v][s]))
  }

  /** `m[:, j] = col`: column `j` replaced, every other entry kept. */
  function SetColumn<T>(m: seq<seq<T>>, j: nat, col: seq<T>): (r: seq<seq<T>>)
    requires forall s :: 0 <= s < |m| ==> j < |m[s]|
    requires |col| == |m|
    ensures |r| == |m|
    ensures forall s {:trigger r[s]} :: 0 <= s < |m| ==> |r[s]| == |m[s]|
    ensures forall s, k {:trigger r[s][k]} :: 0 <= s < |m| && 0 <= k < |m[s]| ==> r[s][k] == if k == j then col[s] else m[s][k]
  {
    seq(|m|, s requires 0 <= s < |m| => m[s][j := col[s]])
  }

  /** Writes `cols[0]`, `cols[1]`, ... into columns 0, 1, ... of `m`, in that
      order, as a loop `for j: m[:, j] = cols[j]` does. */
  function AssignColumns<T>(m: seq<seq<T>>, cols: seq<seq<T>>): (r: seq<seq<T>>)
    requires forall s :: 0 <= s < |m| ==> |cols| <= |m[s]|
    requires Uniform(cols, |m|)
    ensures |r| == |m|
    ensures forall s {:trigger r[s]} :: 0 <= s < |m| ==> |r[s]| == |m[s]|
    decreases |cols|
  {
    if |cols| == 0 then m
    else SetColumn(AssignColumns(m, cols[..|cols| - 1]), |cols| - 1, cols[|cols| - 1])
  }

  /** After the loop, column `j` holds `cols[j]` for every written column and
      the original entries elsewhere. */
  lemma {:induction false} AssignColumnsAt<T>(m: seq<seq<T>>, cols: seq<seq<T>>)
    requires forall s :: 0 <= s < |m| ==> |cols| <= |m[s]|
    requires Uniform(cols, |m|)
    ensures forall s, j {:trigger AssignColumns(m, cols)[s][j]} :: 0 <= s < |m| && 0 <= j < |m[s]| ==>
              AssignColumns(m, cols)[s][j] == if j < |cols| then cols[j][s] else m[s][j]
    decreases |cols|
  {
    if |cols| > 0 {
      var last := |cols| - 1;
      var done := cols[..last];
      AssignColumnsAt(m, done);
      var prev := AssignColumns(m, done);
      assert AssignColumns(m, cols) == SetColumn(prev, last, cols[last]);
      forall s, j | 0 <= s < |m| && 0 <= j < |m[s]|
        ensures AssignColumns(m, cols)[s][j] == if j < |cols| then cols[j][s] else m[s][j]
      {
        if j != last {
          assert prev[s][j] == if j < |done| then done[j][s] else m[s][j];
        }
      }
    }
  }

  /** One entry of `AssignColumns`: a written column reads the column given
      for it, any other column reads the original. */
  lemma AssignColumnsEntry<T>(m: seq<seq<T>>, cols: seq<seq<T>>, s: nat, j: nat)
    requires forall s :: 0 <= s < |m| ==> |cols| <= |m[s]|
    requires Uniform(cols, |m|)
    requires s < |m| && j < |m[s]|
    ensures AssignColumns(m, cols)[s][j] == if j < |cols| then cols[j][s] else m[s][j]
  {
    AssignColumnsAt(m, cols);
  }
}
