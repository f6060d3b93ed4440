/**
 * The fixed bank of oriented Gabor texture filters (build_filters).
 * The Gabor kernel values come from OpenCV and are a parameter of the model;
 * what is modelled is the orientation loop and the normalisation of each kernel.
 */
module FilterBank {
  import opened Common

  /** Number of orientations: theta runs over 0, pi/16, ..., 15*pi/16. */
  const Orientations: nat := 16

  /** Kernel side length in pixels. */
  const KernelSize: nat := 11

  /**
   * The arguments of one Gabor kernel request. The orientation is given by
   * its step: theta = thetaStep * pi / 16. Since pi / 16 divides pi exactly,
   * the source's range(0, pi, pi / 16) has exactly 16 steps.
   */
  datatype GaborParams = GaborParams(
    ksize: nat, sigma: real, thetaStep: nat, lambda: real, gamma: real, psi: real)

  /** The parameters used for orientation step `step`. */
  function ParamsAt(step: nat): GaborParams {
    GaborParams(KernelSize, 4.0, step, 10.0, 0.5, 0.0)
  }

  /**
   * A normalised kernel. Dividing by 1.5 times a zero sum does not raise in
   * the source; it fills the kernel with infinities and NaNs, which NonFinite
   * stands for.
   */
  datatype Kernel = Finite(cells: Grid<real>) | NonFinite

  /** The sum of every element of a kernel. */
  function GridSum(g: Grid<real>): real {
    if g == [] then 0.0 else Sum(g[0]) + GridSum(g[1..])
  }

  function DivideRow(r: seq<real>, d: real): (q: seq<real>)
    requires d != 0.0
    ensures |q| == |r|
  {
    seq(|r|, j requires 0 <= j < |r| => r[j] / d)
  }

  function Divide(g: Grid<real>, d: real): (q: Grid<real>)
    requires d != 0.0
    ensures |q| == |g|
    ensures forall i :: 0 <= i < |g| ==> |q[i]| == |g[i]|
    ensures forall i, j :: 0 <= i < |g| && 0 <= j < |g[i]| ==> q[i][j] * d == g[i][j]
  {
    seq(|g|, i requires 0 <= i < |g| => DivideRow(g[i], d))
  }

  lemma {:induction false} SumDivide(r: seq<real>, d: real)
    requires d != 0.0
    ensures Sum(DivideRow(r, d)) == Sum(r) / d
    decreases |r|
  {
    if r != [] {
      assert DivideRow(r, d)[1..] == DivideRow(r[1..], d);
      SumDivide(r[1..], d);
    }
  }

  lemma {:induction false} GridSumDivide(g: Grid<real>, d: real)
    requires d != 0.0
    ensures GridSum(Divide(g, d)) == GridSum(g) / d
    decreases |g|
  {
    if g != [] {
      assert Divide(g, d)[1..] == Divide(g[1..], d);
      SumDivide(g[0], d);
      GridSumDivide(g[1..], d);
      DivideSum(Sum(g[0]), GridSum(g[1..]), d);
    }
  }

  lemma DivideSum(a: real, b: real, d: real)
    requires d != 0.0
    ensures (a + b) / d == a / d + b / d
  {}

  lemma ShareOfWhole(s: real)
    requires s != 0.0
    ensures s / (1.5 * s) == 1.0 / 1.5
  {}

  /**
   * Divides every element of the raw kernel by 1.5 times its sum. When the
   * sum is not zero the result keeps the raw kernel's shape and proportions
   * and sums to 1 / 1.5.
   */
  function Normalise(raw: Grid<real>): (k: Kernel)
    ensures k.Finite? <==> GridSum(raw) != 0.0
    ensures k.Finite? ==> |k.cells| == |raw|
    ensures k.Finite? ==> forall i, j :: 0 <= i < |raw| && 0 <= j < |raw[i]| ==>
      |k.cells[i]| == |raw[i]| && k.cells[i][j] * (1.5 * GridSum(raw)) == raw[i][j]
    ensures k.Finite? ==> GridSum(k.cells) == 1.0 / 1.5
  {
    var s := GridSum(raw);
    if s == 0.0 then NonFinite
    else
      GridSumDivide(raw, 1.5 * s);
      ShareOfWhole(s);
      Finite(Divide(raw, 1.5 * s))
  }

  /**
   * Builds the bank: one normalised Gabor kernel per orientation step, in
   * increasing orientation.
   */
  method BuildFilters(gabor: GaborParams -> Grid<real>) returns (filters: seq<Kernel>)
    ensures |filters| == Orientations
    ensures forall i :: 0 <= i < Orientations ==> filters[i] == Normalise(gabor(ParamsAt(i)))
  {
    filters := [];
    for step := 0 to Orientations
      invariant |filters| == step
      invariant forall i :: 0 <= i < step ==> filters[i] == Normalise(gabor(ParamsAt(i)))
    {
      var kern := gabor(ParamsAt(step));
      filters := filters + [Normalise(kern)];
    }
  }
}
