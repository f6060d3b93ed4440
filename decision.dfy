/**
 * The per-modality decision rules that turn a nearest-column index into a
 * label. The divisors are calibration constants of the reference matrices.
 * Image and audio call the lowest band of indices FAKE; video calls a high
 * mean frame code FAKE. The two polarities differ and are kept as they are.
 */
module Decision {
  import opened Common

  datatype Label = Fake | Normal

  /** A successful prediction: the result label and the score reported with it. */
  datatype Verdict = Verdict(result: Label, score: real)

  const ImageBand: nat := 250
  const AudioBand: nat := 100
  const FrameBand: nat := 2455

  /** At most this many video frames are classified. */
  const MaxFrames: nat := 100

  /** Image: floor(n / 250) == 0 means FAKE. */
  function ImageLabel(n: nat): (l: Label)
    ensures l == Fake <==> n < ImageBand
  {
    if n / ImageBand == 0 then Fake else Normal
  }

  /** Audio: floor(n / 100) == 0 means FAKE. */
  function AudioLabel(n: nat): (l: Label)
    ensures l == Fake <==> n < AudioBand
  {
    if n / AudioBand == 0 then Fake else Normal
  }

  /** The code of one video frame: the band of 2455 indices its index falls in. */
  function FrameCode(n: nat): (c: nat)
    ensures c * FrameBand <= n < (c + 1) * FrameBand
  {
    n / FrameBand
  }

  /** The arithmetic mean of the frame codes (np.mean). */
  function Mean(codes: seq<nat>): (r: real)
    requires |codes| > 0
    ensures r >= 0.0
    ensures r * |codes| as real == Total(codes) as real
  {
    TotalNonNegative(codes);
    DivideMonotone(0.0, Total(codes) as real, |codes| as real);
    Total(codes) as real / |codes| as real
  }

  /** Frame codes are natural numbers, so their sum is never negative. */
  lemma {:induction false} TotalNonNegative(codes: seq<nat>)
    ensures Total(codes) >= 0
  {
    if codes != [] {
      TotalNonNegative(codes[1..]);
    }
  }

  /** Video: a mean of at most 0.5 means NORMAL. */
  function MeanLabel(mean: real): (l: Label)
    ensures l == Normal <==> mean <= 0.5
  {
    if mean <= 0.5 then Normal else Fake
  }

  lemma DivideMonotone(a: real, b: real, c: real)
    requires c > 0.0 && a <= b
    ensures a / c <= b / c
  {}

  lemma DivideStrict(a: real, b: real, c: real)
    requires c > 0.0 && a < b
    ensures a / c < b / c
  {}

  lemma HalfShare(c: real)
    requires c > 0.0
    ensures (c / 2.0) / c == 0.5
  {}

  /**
   * The video threshold over integers: the mean code is at most 0.5 exactly
   * when twice the sum of the codes is at most their number.
   */
  lemma MeanLabelNormalIff(codes: seq<nat>)
    requires |codes| > 0
    ensures MeanLabel(Mean(codes)) == Normal <==> 2 * Total(codes) <= |codes|
  {
    var s, n := Total(codes) as real, |codes| as real;
    HalfShare(n);
    if 2 * Total(codes) <= |codes| {
      DivideMonotone(s, n / 2.0, n);
    } else {
      DivideStrict(n / 2.0, s, n);
    }
  }
}
