/**
 * Texture response extraction (process): the per-pixel maximum of the
 * filter responses of a grayscale image, accumulated in place from zero.
 * The correlation itself (OpenCV's filter2D) is a parameter of the model: a
 * function from an image and a kernel to an 8-bit response surface.
 */
module Texture {
  import opened Common

  function Max(a: byte, b: byte): (m: byte)
    ensures a <= m && b <= m && (m == a || m == b)
  {
    if a < b then b else a
  }

  /** filter2D keeps the shape of `img` for every kernel of the bank. */
  predicate KeepsShape<K>(img: Grid<byte>, filters: seq<K>, filter2D: (Grid<byte>, K) -> Grid<byte>) {
    forall k :: 0 <= k < |filters| ==> Shaped(filter2D(img, filters[k]), |img|, Width(img))
  }

  /** The response of `img` to each kernel, in bank order. */
  function Responses<K>(img: Grid<byte>, filters: seq<K>, filter2D: (Grid<byte>, K) -> Grid<byte>): (rs: seq<Grid<byte>>)
    ensures |rs| == |filters|
    ensures forall k :: 0 <= k < |filters| ==> rs[k] == filter2D(img, filters[k])
    ensures (forall k :: 0 <= k < |filters| ==> Shaped(filter2D(img, filters[k]), |img|, Width(img))) ==>
            AllShaped(rs, |img|, Width(img))
  {
    seq(|filters|, k requires 0 <= k < |filters| => filter2D(img, filters[k]))
  }

  predicate AllShaped(rs: seq<Grid<byte>>, h: nat, w: nat) {
    forall k :: 0 <= k < |rs| ==> Shaped(rs[k], h, w)
  }

  /** The accumulator's value at (i, j) after folding max over `rs` in order, from 0. */
  function MaxAt(rs: seq<Grid<byte>>, h: nat, w: nat, i: nat, j: nat): (m: byte)
    requires AllShaped(rs, h, w) && i < h && j < w
    ensures forall k :: 0 <= k < |rs| ==> rs[k][i][j] <= m
  {
    if rs == [] then 0
    else
      var init := rs[..|rs| - 1];
      assert forall k :: 0 <= k < |init| ==> init[k] == rs[k];
      Max(MaxAt(init, h, w, i, j), rs[|rs| - 1][i][j])
  }

  /** The response surface: MaxAt at every position of an h-by-w image. */
  function MaxSurface(rs: seq<Grid<byte>>, h: nat, w: nat): (s: Grid<byte>)
    requires AllShaped(rs, h, w)
    ensures Shaped(s, h, w)
  {
    seq(h, i requires 0 <= i < h =>
      seq(w, j requires 0 <= j < w => MaxAt(rs, h, w, i, j)))
  }

  /**
   * The fold is the maximum of 0 and every response at that position: it is
   * an upper bound of the responses and it is 0 or one of them.
   */
  lemma {:induction false} MaxAtIsMaximum(rs: seq<Grid<byte>>, h: nat, w: nat, i: nat, j: nat)
    requires AllShaped(rs, h, w) && i < h && j < w
    ensures forall k :: 0 <= k < |rs| ==> rs[k][i][j] <= MaxAt(rs, h, w, i, j)
    ensures MaxAt(rs, h, w, i, j) == 0 ||
            exists k :: 0 <= k < |rs| && MaxAt(rs, h, w, i, j) == rs[k][i][j]
    decreases |rs|
  {
    if rs != [] {
      var init := rs[..|rs| - 1];
      MaxAtIsMaximum(init, h, w, i, j);
      assert forall k :: 0 <= k < |init| ==> init[k] == rs[k];
    }
  }

  /** The fold depends only on which responses occur, not on their order. */
  lemma MaxAtOrderFree(rs: seq<Grid<byte>>, qs: seq<Grid<byte>>, h: nat, w: nat, i: nat, j: nat)
    requires AllShaped(rs, h, w) && AllShaped(qs, h, w) && i < h && j < w
    requires forall g :: g in rs <==> g in qs
    ensures MaxAt(rs, h, w, i, j) == MaxAt(qs, h, w, i, j)
  {
    MaxAtIsMaximum(rs, h, w, i, j);
    MaxAtIsMaximum(qs, h, w, i, j);
    var a, b := MaxAt(rs, h, w, i, j), MaxAt(qs, h, w, i, j);
    if a != 0 {
      var k :| 0 <= k < |rs| && a == rs[k][i][j];
      assert rs[k] in qs;
      var k' :| 0 <= k' < |qs| && qs[k'] == rs[k];
      assert a <= b;
    }
    if b != 0 {
      var k :| 0 <= k < |qs| && b == qs[k][i][j];
      assert qs[k] in rs;
      var k' :| 0 <= k' < |rs| && rs[k'] == qs[k];
      assert b <= a;
    }
  }

  /**
   * Evaluating the kernels in any order gives the same response surface:
   * a permutation of the bank leaves the result unchanged.
   */
  lemma ProcessOrderFree<K>(img: Grid<byte>, filters: seq<K>, other: seq<K>, filter2D: (Grid<byte>, K) -> Grid<byte>)
    requires Rectangular(img) && KeepsShape(img, filters, filter2D)
    requires multiset(filters) == multiset(other)
    ensures KeepsShape(img, other, filter2D)
    ensures MaxSurface(Responses(img, filters, filter2D), |img|, Width(img)) ==
            MaxSurface(Responses(img, other, filter2D), |img|, Width(img))
  {
    var rs, qs := Responses(img, filters, filter2D), Responses(img, other, filter2D);
    forall k | 0 <= k < |other|
      ensures Shaped(filter2D(img, other[k]), |img|, Width(img))
      ensures qs[k] in rs
    {
      assert other[k] in multiset(filters);
      var m :| 0 <= m < |filters| && filters[m] == other[k];
      assert rs[m] == qs[k];
    }
    forall k | 0 <= k < |filters| ensures rs[k] in qs {
      assert filters[k] in multiset(other);
      var m :| 0 <= m < |other| && other[m] == filters[k];
      assert qs[m] == rs[k];
    }
    var h, w := |img|, Width(img);
    forall i | 0 <= i < h ensures MaxSurface(rs, h, w)[i] == MaxSurface(qs, h, w)[i] {
      forall j | 0 <= j < w ensures MaxAt(rs, h, w, i, j) == MaxAt(qs, h, w, i, j) {
        MaxAtOrderFree(rs, qs, h, w, i, j);
      }
    }
  }

  /**
   * Applies every kernel to `img` and folds the responses into a fresh
   * zero-initialised accumulator of the image's shape with an in-place
   * element-wise maximum.
   */
  method Process<K>(img: Grid<byte>, filters: seq<K>, filter2D: (Grid<byte>, K) -> Grid<byte>)
    returns (accum: array2<byte>)
    requires Rectangular(img) && KeepsShape(img, filters, filter2D)
    ensures fresh(accum)
    ensures accum.Length0 == |img| && accum.Length1 == Width(img)
    ensures forall i, j :: 0 <= i < accum.Length0 && 0 <= j < accum.Length1 ==>
      accum[i, j] == MaxAt(Responses(img, filters, filter2D), |img|, Width(img), i, j)
  {
    var h, w := |img|, Width(img);
    accum := new byte[h, w]((i, j) => 0);
    ghost var rs := Responses(img, filters, filter2D);
    for k := 0 to |filters|
      invariant forall i, j :: 0 <= i < h && 0 <= j < w ==> accum[i, j] == MaxAt(rs[..k], h, w, i, j)
    {
      var fimg := filter2D(img, filters[k]);
      forall i, j | 0 <= i < h && 0 <= j < w {
        accum[i, j] := Max(accum[i, j], fimg[i][j]);
      }
      assert rs[..k + 1][..k] == rs[..k];
    }
    assert rs[..|filters|] == rs;
  }

  /** The contents of a two-dimensional array, row by row. */
  function Contents(a: array2<byte>): (g: Grid<byte>)
    reads a
    ensures Shaped(g, a.Length0, a.Length1)
  {
    seq(a.Length0, i requires 0 <= i < a.Length0 reads a =>
      seq(a.Length1, j requires 0 <= j < a.Length1 reads a => a[i, j]))
  }
}
