/**
 * One-nearest-neighbour lookup against a reference matrix (Calc_Wt): the
 * distance from the query to every column, then the index of the smallest
 * distance, the first one on ties (numpy argmin).
 *
 * Distances are squared Euclidean norms. The source takes the square root;
 * since the square root is strictly increasing on non-negative numbers the
 * minimum and its first index are the same. Entries are integers.
 */
module Neighbours {
  import opened Common

  /** A `rows`-by-`cols` reference matrix; each column is one exemplar. */
  datatype Matrix = Matrix(rows: nat, cols: nat, cells: Grid<int>)

  predicate Valid(m: Matrix) {
    Shaped(m.cells, m.rows, m.cols)
  }

  /** Column j of the matrix (TRR[:, j]). */
  function Column(m: Matrix, j: nat): (c: seq<int>)
    requires Valid(m) && j < m.cols
    ensures |c| == m.rows
  {
    seq(m.rows, r requires 0 <= r < m.rows => m.cells[r][j])
  }

  /** The transpose (numpy transpose of a 2-D array): its rows are m's columns. */
  function Transpose(m: Matrix): (t: Matrix)
    requires Valid(m)
    ensures Valid(t) && t.rows == m.cols && t.cols == m.rows
  {
    Matrix(m.cols, m.rows, seq(m.cols, c requires 0 <= c < m.cols => Column(m, c)))
  }

  /** Column j of the transpose is row j of the original. */
  lemma TransposeColumns(m: Matrix)
    requires Valid(m)
    ensures forall j :: 0 <= j < m.rows ==> Column(Transpose(m), j) == m.cells[j]
  {
    forall j | 0 <= j < m.rows ensures Column(Transpose(m), j) == m.cells[j] {
      assert forall r :: 0 <= r < m.cols ==> Column(Transpose(m), j)[r] == m.cells[j][r];
    }
  }

  /** Transposing twice gives back the original matrix. */
  lemma TransposeTwice(m: Matrix)
    requires Valid(m)
    ensures Transpose(Transpose(m)) == m
  {
    var t := Transpose(Transpose(m));
    forall r | 0 <= r < m.rows ensures t.cells[r] == m.cells[r] {
      TransposeColumns(Transpose(m));
      assert t.cells[r] == Column(Transpose(m), r);
      TransposeColumns(m);
    }
  }

  /** numpy broadcasting of two vectors: equal lengths, or one of length 1. */
  predicate Broadcastable(a: nat, b: nat) {
    a == b || a == 1 || b == 1
  }

  /** Entry k of a vector stretched by broadcasting. */
  function Entry(s: seq<int>, k: nat): int
    requires |s| == 1 || k < |s|
  {
    if |s| == 1 then s[0] else s[k]
  }

  /** np.subtract(q, c) for two broadcastable vectors. */
  function Subtract(q: seq<int>, c: seq<int>): (d: seq<int>)
    requires Broadcastable(|q|, |c|)
    ensures |d| == if |q| == 1 then |c| else |q|
    ensures |q| == |c| ==> forall k :: 0 <= k < |q| ==> d[k] == q[k] - c[k]
  {
    var n := if |q| == 1 then |c| else |q|;
    seq(n, k requires 0 <= k < n => Entry(q, k) - Entry(c, k))
  }

  /** The squared Euclidean norm. */
  function SquaredNorm(d: seq<int>): (n: int)
    ensures n >= 0
  {
    if d == [] then 0 else d[0] * d[0] + SquaredNorm(d[1..])
  }

  /** The squared norm vanishes exactly on the zero vector. */
  lemma {:induction false} SquaredNormZero(d: seq<int>)
    ensures SquaredNorm(d) == 0 <==> forall k :: 0 <= k < |d| ==> d[k] == 0
    decreases |d|
  {
    if d != [] {
      SquaredNormZero(d[1..]);
      assert forall k :: 1 <= k < |d| ==> d[k] == d[1..][k - 1];
    }
  }

  /** The squared distance from the query to column j. */
  function Distance(m: Matrix, q: seq<int>, j: nat): (d: int)
    requires Valid(m) && j < m.cols && Broadcastable(|q|, m.rows)
    ensures d >= 0
    ensures |q| == m.rows ==> (d == 0 <==> q == Column(m, j))
  {
    var diff := Subtract(q, Column(m, j));
    SquaredNormZero(diff);
    assert |q| == m.rows && q != Column(m, j) ==> exists k :: 0 <= k < |q| && q[k] != Column(m, j)[k];
    SquaredNorm(diff)
  }

  /** The list M of the source: the distance to every column, in column order. */
  function Distances(m: Matrix, q: seq<int>): (ds: seq<int>)
    requires Valid(m) && Broadcastable(|q|, m.rows)
    ensures |ds| == m.cols
  {
    seq(m.cols, j requires 0 <= j < m.cols => Distance(m, q, j))
  }

  /** numpy argmin: the first index holding the minimum. */
  function ArgMin(s: seq<int>): (k: nat)
    requires |s| > 0
    ensures k < |s|
    ensures forall j :: 0 <= j < |s| ==> s[k] <= s[j]
    ensures forall j :: 0 <= j < k ==> s[k] < s[j]
  {
    if |s| == 1 then 0
    else
      var k := ArgMin(s[..|s| - 1]);
      if s[|s| - 1] < s[k] then |s| - 1 else k
  }

  /**
   * The nearest column to `q`. With no columns argmin fails; otherwise a query
   * that cannot be broadcast against the columns fails in the subtraction.
   * On success the index is a column whose distance is minimal and no
   * earlier column is as close.
   */
  function Nearest(m: Matrix, q: seq<int>): (r: Result<nat>)
    requires Valid(m)
    ensures r.Ok? <==> m.cols >= 1 && Broadcastable(|q|, m.rows)
    ensures m.cols == 0 ==> r == Err(EmptyReference)
    ensures m.cols >= 1 && !Broadcastable(|q|, m.rows) ==> r == Err(ShapeMismatch)
    ensures r.Ok? ==> r.value < m.cols
    ensures r.Ok? ==> forall j :: 0 <= j < m.cols ==> Distance(m, q, r.value) <= Distance(m, q, j)
    ensures r.Ok? ==> forall j :: 0 <= j < r.value ==> Distance(m, q, r.value) < Distance(m, q, j)
  {
    if m.cols == 0 then Err(EmptyReference)
    else if !Broadcastable(|q|, m.rows) then Err(ShapeMismatch)
    else
      var ds := Distances(m, q);
      assert forall j :: 0 <= j < m.cols ==> ds[j] == Distance(m, q, j);
      Ok(ArgMin(ds))
  }

  /**
   * Querying with column j finds a column at distance 0 that equals column j,
   * at or before j; it is j itself unless an identical column comes earlier.
   */
  lemma NearestToOwnColumn(m: Matrix, j: nat)
    requires Valid(m) && j < m.cols
    ensures Nearest(m, Column(m, j)).Ok?
    ensures var n := Nearest(m, Column(m, j)).value;
      n <= j && Distance(m, Column(m, j), n) == 0 && Column(m, n) == Column(m, j)
    ensures (forall i :: 0 <= i < j ==> Column(m, i) != Column(m, j)) ==>
      Nearest(m, Column(m, j)) == Ok(j)
  {
    var q := Column(m, j);
    SquaredNormZero(Subtract(q, q));
    assert Distance(m, q, j) == 0;
    var n := Nearest(m, q).value;
    SquaredNormZero(Subtract(q, Column(m, n)));
    assert Column(m, n) == q;
  }

  /**
   * Calc_Wt: collects the distance to each column in a list and returns the
   * index of the first minimum.
   */
  method CalcWt(trr: Matrix, tst: seq<int>) returns (r: Result<nat>)
    requires Valid(trr)
    ensures r == Nearest(trr, tst)
  {
    var m: seq<int> := [];
    for i := 0 to trr.cols
      invariant i > 0 ==> Broadcastable(|tst|, trr.rows)
      invariant |m| == i
      invariant forall k :: 0 <= k < i ==> m[k] == Distance(trr, tst, k)
    {
      var rr := Column(trr, i);
      if !Broadcastable(|tst|, |rr|) {
        return Err(ShapeMismatch);
      }
      var temp := Subtract(tst, rr);
      var err := SquaredNorm(temp);
      m := m + [err];
    }
    if |m| == 0 {
      return Err(EmptyReference);
    }
    assert m == Distances(trr, tst);
    r := Ok(ArgMin(m));
  }
}
