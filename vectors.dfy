/**
 * Feature vectorisation: the row-major flatten of a response surface
 * (image and video paths) and the per-coefficient sum over time of a
 * cepstral coefficient matrix (audio path).
 */
module Vectors {
  import opened Common

  /** The rows of `g` laid end to end (numpy reshape / ravel of a C-ordered array). */
  function Flatten<T>(g: Grid<T>): (r: seq<T>)
    ensures forall i :: 0 <= i < |g| ==> |g[i]| <= |r|
    ensures g != [] ==> r[..|g[0]|] == g[0]
  {
    if g == [] then [] else g[0] + Flatten(g[1..])
  }

  /** Flattening an h-by-w surface gives h * w entries. */
  lemma {:induction false} FlattenLength<T>(g: Grid<T>, w: nat)
    requires Shaped(g, |g|, w)
    ensures |Flatten(g)| == |g| * w
    decreases |g|
  {
    if g != [] {
      var rest := g[1..];
      assert Shaped(rest, |rest|, w);
      FlattenLength(rest, w);
      assert |g| * w == w + |rest| * w;
    }
  }

  /** Flattening is row-major: the entry at row i, column j lands at position i * w + j. */
  lemma {:induction false} FlattenAt<T>(g: Grid<T>, w: nat, i: nat, j: nat)
    requires Shaped(g, |g|, w) && i < |g| && j < w
    ensures |Flatten(g)| == |g| * w
    ensures i * w + j < |Flatten(g)| && Flatten(g)[i * w + j] == g[i][j]
    decreases |g|
  {
    FlattenLength(g, w);
    var rest := g[1..];
    assert Shaped(rest, |rest|, w);
    assert Flatten(g) == g[0] + Flatten(rest);
    if i > 0 {
      FlattenAt(rest, w, i - 1, j);
      var p := (i - 1) * w + j;
      assert i * w + j == w + p;
      assert Flatten(g)[w + p] == Flatten(rest)[p];
    }
  }

  /** The query vector of a surface: every 8-bit entry widened to an integer. */
  function Widen(v: seq<byte>): (r: seq<int>)
    ensures |r| == |v|
    ensures forall k :: 0 <= k < |r| ==> 0 <= r[k] < 256 && r[k] == v[k] as int
  {
    seq(|v|, k requires 0 <= k < |v| => v[k] as int)
  }

  /** The audio feature vector: one sum over the time axis per coefficient row. */
  function RowSums(a: Grid<int>): (r: seq<int>)
    ensures |r| == |a|
  {
    seq(|a|, i requires 0 <= i < |a| => Total(a[i]))
  }

  /** Two clips' coefficient matrices placed one after the other in time. */
  function Concat(a: Grid<int>, b: Grid<int>): (c: Grid<int>)
    requires |a| == |b|
    ensures |c| == |a|
  {
    seq(|a|, i requires 0 <= i < |a| => a[i] + b[i])
  }

  lemma {:induction false} TotalAppend(s: seq<int>, t: seq<int>)
    ensures Total(s + t) == Total(s) + Total(t)
    decreases |s|
  {
    if s == [] {
      assert s + t == t;
    } else {
      assert (s + t)[1..] == s[1..] + t;
      TotalAppend(s[1..], t);
    }
  }

  /**
   * The audio feature vector is additive over time: the features of two
   * consecutive stretches of audio add up to those of the whole.
   */
  lemma RowSumsAdditive(a: Grid<int>, b: Grid<int>)
    requires |a| == |b|
    ensures forall i :: 0 <= i < |a| ==>
      RowSums(Concat(a, b))[i] == RowSums(a)[i] + RowSums(b)[i]
  {
    forall i | 0 <= i < |a|
      ensures RowSums(Concat(a, b))[i] == RowSums(a)[i] + RowSums(b)[i]
    {
      TotalAppend(a[i], b[i]);
    }
  }
}
