/**
 * The classification steps that both deployments share word for word:
 * grayscale image -> response surface -> query vector -> nearest column,
 * and the per-frame codes of a video.
 */
module Pipeline {
  import opened Common
  import opened Texture
  import opened Vectors
  import opened Neighbours
  import opened Decision

  /** Side of the resized still image. */
  const ImageSide: nat := 256

  /** Side of each resized video frame. */
  const FrameSide: nat := 64

  /**
   * The query vector of a grayscale image: its response surface, reshaped to
   * one row-major vector (reshape, ravel and the transpose of a 1-D array,
   * which changes nothing) and widened from 8 bits.
   */
  function SurfaceQuery<K>(gray: Grid<byte>, filters: seq<K>, filter2D: (Grid<byte>, K) -> Grid<byte>): (q: seq<int>)
    requires Rectangular(gray) && KeepsShape(gray, filters, filter2D)
    ensures forall k :: 0 <= k < |q| ==> 0 <= q[k] < 256
  {
    Widen(Flatten(MaxSurface(Responses(gray, filters, filter2D), |gray|, Width(gray))))
  }

  /**
   * An h-by-w image gives a query of h * w entries whose entry i * w + j is
   * the maximum response at pixel (i, j).
   */
  lemma SurfaceQueryAt<K>(gray: Grid<byte>, filters: seq<K>, filter2D: (Grid<byte>, K) -> Grid<byte>, i: nat, j: nat)
    requires Rectangular(gray) && KeepsShape(gray, filters, filter2D)
    requires i < |gray| && j < Width(gray)
    ensures |SurfaceQuery(gray, filters, filter2D)| == |gray| * Width(gray)
    ensures i * Width(gray) + j < |gray| * Width(gray)
    ensures SurfaceQuery(gray, filters, filter2D)[i * Width(gray) + j] ==
            MaxAt(Responses(gray, filters, filter2D), |gray|, Width(gray), i, j) as int
  {
    var surface := MaxSurface(Responses(gray, filters, filter2D), |gray|, Width(gray));
    FlattenAt(surface, Width(gray), i, j);
  }

  /** An h-by-w image gives a query vector of h * w entries. */
  lemma SurfaceQueryLength<K>(gray: Grid<byte>, filters: seq<K>, filter2D: (Grid<byte>, K) -> Grid<byte>)
    requires Rectangular(gray) && KeepsShape(gray, filters, filter2D)
    ensures |SurfaceQuery(gray, filters, filter2D)| == |gray| * Width(gray)
  {
    FlattenLength(MaxSurface(Responses(gray, filters, filter2D), |gray|, Width(gray)), Width(gray));
  }

  /** Runs process on the image and turns the accumulator into the query vector. */
  method ExtractQuery<K>(gray: Grid<byte>, filters: seq<K>, filter2D: (Grid<byte>, K) -> Grid<byte>)
    returns (tst: seq<int>)
    requires Rectangular(gray) && KeepsShape(gray, filters, filter2D)
    ensures tst == SurfaceQuery(gray, filters, filter2D)
  {
    var processed := Process(gray, filters, filter2D);
    var surface := Contents(processed);
    ghost var expected := MaxSurface(Responses(gray, filters, filter2D), |gray|, Width(gray));
    forall i | 0 <= i < |gray| ensures surface[i] == expected[i] {
      assert forall j :: 0 <= j < Width(gray) ==> surface[i][j] == expected[i][j];
    }
    assert surface == expected;
    tst := Widen(Flatten(surface));
  }

  /** The nearest reference column to the response of a grayscale image. */
  function SurfaceIndex<K>(model: Matrix, gray: Grid<byte>, filters: seq<K>, filter2D: (Grid<byte>, K) -> Grid<byte>)
    : (r: Result<nat>)
    requires Valid(model) && Rectangular(gray) && KeepsShape(gray, filters, filter2D)
    ensures r.Ok? <==> model.cols >= 1 && Broadcastable(|gray| * Width(gray), model.rows)
    ensures r.Ok? ==> r.value < model.cols
  {
    SurfaceQueryLength(gray, filters, filter2D);
    Nearest(model, SurfaceQuery(gray, filters, filter2D))
  }

  /** Every frame has the resized frame shape and filter2D keeps it. */
  predicate FramesFit<K>(frames: seq<Grid<byte>>, filters: seq<K>, filter2D: (Grid<byte>, K) -> Grid<byte>) {
    forall i :: 0 <= i < |frames| ==>
      Shaped(frames[i], FrameSide, FrameSide) && KeepsShape(frames[i], filters, filter2D)
  }

  /** The frames the capture loop gets to: the first 100 at most. */
  function Capped<T>(frames: seq<T>): (r: seq<T>)
    ensures |r| == Min(|frames|, MaxFrames)
    ensures forall i :: 0 <= i < |r| ==> r[i] == frames[i]
  {
    frames[..Min(|frames|, MaxFrames)]
  }

  /** The nearest-column lookup of every frame, in stream order. */
  function FrameLookups<K>(model: Matrix, frames: seq<Grid<byte>>, filters: seq<K>, filter2D: (Grid<byte>, K) -> Grid<byte>)
    : (ls: seq<Result<nat>>)
    requires Valid(model) && FramesFit(frames, filters, filter2D)
    ensures |ls| == |frames|
  {
    seq(|frames|, i requires 0 <= i < |frames| => SurfaceIndex(model, frames[i], filters, filter2D))
  }

  /** The frames the capture loop gets to fit whenever the whole stream does. */
  lemma CappedFit<K>(frames: seq<Grid<byte>>, filters: seq<K>, filter2D: (Grid<byte>, K) -> Grid<byte>)
    requires FramesFit(frames, filters, filter2D)
    ensures FramesFit(Capped(frames), filters, filter2D)
  {}

  /** Frame i of the capped stream is a well-formed image, and its lookup is frame i's nearest column. */
  lemma FrameLookupAt<K>(model: Matrix, frames: seq<Grid<byte>>, filters: seq<K>, filter2D: (Grid<byte>, K) -> Grid<byte>, i: nat)
    requires Valid(model) && FramesFit(frames, filters, filter2D) && i < Min(|frames|, MaxFrames)
    ensures FramesFit(Capped(frames), filters, filter2D)
    ensures Rectangular(frames[i]) && KeepsShape(frames[i], filters, filter2D)
    ensures FrameLookups(model, Capped(frames), filters, filter2D)[i] == SurfaceIndex(model, frames[i], filters, filter2D)
  {
    assert Width(frames[i]) == FrameSide;
  }

  /**
   * The frame codes the capture loop collects from a run of lookups: the
   * first failed lookup aborts the loop with its error; otherwise each index
   * contributes its band.
   */
  function Codes(lookups: seq<Result<nat>>): (r: Result<seq<nat>>)
    ensures r.Ok? ==> |r.value| == |lookups|
  {
    if lookups == [] then Ok([])
    else
      var prev := Codes(lookups[..|lookups| - 1]);
      var last := lookups[|lookups| - 1];
      if prev.Err? then Err(prev.error)
      else if last.Err? then Err(last.error)
      else Ok(prev.value + [FrameCode(last.value)])
  }

  /**
   * The codes succeed exactly when every lookup succeeds, and then code i is
   * the band of index i; otherwise the error is that of the first failed lookup.
   */
  lemma {:induction false} CodesSpec(lookups: seq<Result<nat>>)
    ensures Codes(lookups).Ok? <==> forall i :: 0 <= i < |lookups| ==> lookups[i].Ok?
    ensures Codes(lookups).Ok? ==>
      forall i :: 0 <= i < |lookups| ==> Codes(lookups).value[i] == FrameCode(lookups[i].value)
    ensures Codes(lookups).Err? ==>
      exists i :: 0 <= i < |lookups| && lookups[i] == Err(Codes(lookups).error) &&
        forall k :: 0 <= k < i ==> lookups[k].Ok?
    decreases |lookups|
  {
    if lookups != [] {
      var init := lookups[..|lookups| - 1];
      assert forall i :: 0 <= i < |init| ==> init[i] == lookups[i];
      CodesSpec(init);
      var r := Codes(lookups);
      if Codes(init).Err? {
        var i :| 0 <= i < |init| && init[i] == Err(Codes(init).error) && forall k :: 0 <= k < i ==> init[k].Ok?;
        assert lookups[i] == Err(r.error);
      } else if lookups[|lookups| - 1].Err? {
        assert lookups[|lookups| - 1] == Err(r.error);
      }
    }
  }

  /** Once a prefix of the lookups fails, every longer prefix fails with the same error. */
  lemma {:induction false} CodesFailureSticks(lookups: seq<Result<nat>>, k: nat)
    requires k <= |lookups|
    requires Codes(lookups[..k]).Err?
    ensures Codes(lookups) == Codes(lookups[..k])
    decreases |lookups|
  {
    if k == |lookups| {
      assert lookups[..k] == lookups;
    } else {
      var init := lookups[..|lookups| - 1];
      assert init[..k] == lookups[..k];
      CodesFailureSticks(init, k);
    }
  }

  /** Extending a prefix by one lookup: an earlier failure stays, else the new lookup decides. */
  lemma CodesStep(lookups: seq<Result<nat>>, k: nat)
    requires k < |lookups|
    ensures var prev := Codes(lookups[..k]);
      Codes(lookups[..k + 1]) ==
        if prev.Err? then Err(prev.error)
        else if lookups[k].Err? then Err(lookups[k].error)
        else Ok(prev.value + [FrameCode(lookups[k].value)])
  {
    assert lookups[..k + 1][..k] == lookups[..k];
  }

  /**
   * The image outcome against a loaded reference matrix: the nearest column
   * to the 256-by-256 response surface; the label is FAKE when its index is
   * in the lowest band of 250, and the score is the index itself.
   */
  function ImageOutcome<K>(model: Matrix, gray: Grid<byte>, filters: seq<K>, filter2D: (Grid<byte>, K) -> Grid<byte>)
    : (r: Result<Verdict>)
    requires Valid(model) && Shaped(gray, ImageSide, ImageSide) && KeepsShape(gray, filters, filter2D)
    ensures r.Ok? <==> model.cols >= 1 && Broadcastable(ImageSide * ImageSide, model.rows)
    ensures r.Err? ==> SurfaceIndex(model, gray, filters, filter2D) == Err(r.error)
    ensures r.Ok? ==> SurfaceIndex(model, gray, filters, filter2D) == Ok(r.value.score.Floor)
    ensures r.Ok? ==> r.value.score.Floor as real == r.value.score
    ensures r.Ok? ==> (r.value.result == Fake <==> r.value.score < ImageBand as real)
  {
    SurfaceQueryLength(gray, filters, filter2D);
    match SurfaceIndex(model, gray, filters, filter2D)
    case Err(e) => Err(e)
    case Ok(n) => Ok(Verdict(ImageLabel(n), n as real))
  }

  /**
   * The audio outcome against a loaded reference matrix: the nearest column
   * to the per-coefficient sums over time; the label is FAKE when its index
   * is in the lowest band of 100, and the score is the index.
   */
  function AudioOutcome(model: Matrix, mfcc: Grid<int>): (r: Result<Verdict>)
    requires Valid(model)
    ensures r.Ok? <==> model.cols >= 1 && Broadcastable(|mfcc|, model.rows)
    ensures r.Err? ==> Nearest(model, RowSums(mfcc)) == Err(r.error)
    ensures r.Ok? ==> Nearest(model, RowSums(mfcc)) == Ok(r.value.score.Floor)
    ensures r.Ok? ==> r.value.score.Floor as real == r.value.score
    ensures r.Ok? ==> (r.value.result == Fake <==> r.value.score < AudioBand as real)
  {
    match Nearest(model, RowSums(mfcc))
    case Err(e) => Err(e)
    case Ok(n) => Ok(Verdict(AudioLabel(n), n as real))
  }

  /** The codes of the frames a capture loop classifies: the first 100 at most. */
  function VideoCodes<K>(model: Matrix, frames: seq<Grid<byte>>, filters: seq<K>, filter2D: (Grid<byte>, K) -> Grid<byte>)
    : (r: Result<seq<nat>>)
    requires Valid(model) && FramesFit(frames, filters, filter2D)
    ensures r.Ok? ==> |r.value| == Min(|frames|, MaxFrames)
  {
    CappedFit(frames, filters, filter2D);
    Codes(FrameLookups(model, Capped(frames), filters, filter2D))
  }

  /**
   * The video codes succeed exactly when the lookup of every classified frame
   * does, and then code i is the band of frame i's nearest column; otherwise
   * the error is that of the first frame whose lookup fails.
   */
  lemma VideoCodesSpec<K>(model: Matrix, frames: seq<Grid<byte>>, filters: seq<K>, filter2D: (Grid<byte>, K) -> Grid<byte>)
    requires Valid(model) && FramesFit(frames, filters, filter2D)
    ensures VideoCodes(model, frames, filters, filter2D).Ok? <==>
      forall i :: 0 <= i < Min(|frames|, MaxFrames) ==> SurfaceIndex(model, frames[i], filters, filter2D).Ok?
    ensures VideoCodes(model, frames, filters, filter2D).Ok? ==> forall i :: 0 <= i < Min(|frames|, MaxFrames) ==>
      VideoCodes(model, frames, filters, filter2D).value[i] == FrameCode(SurfaceIndex(model, frames[i], filters, filter2D).value)
    ensures VideoCodes(model, frames, filters, filter2D).Err? ==>
      exists i :: 0 <= i < Min(|frames|, MaxFrames) &&
        SurfaceIndex(model, frames[i], filters, filter2D) == Err(VideoCodes(model, frames, filters, filter2D).error) &&
        forall k :: 0 <= k < i ==> SurfaceIndex(model, frames[k], filters, filter2D).Ok?
  {
    var lookups := FrameLookups(model, Capped(frames), filters, filter2D);
    forall i | 0 <= i < |lookups|
      ensures lookups[i] == SurfaceIndex(model, frames[i], filters, filter2D)
    {
      FrameLookupAt(model, frames, filters, filter2D, i);
    }
    CodesSpec(lookups);
  }
}
