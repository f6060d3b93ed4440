/**
 * The local service: the three reference matrices loaded once at start-up,
 * and the image, audio and video predictions that classify an upload
 * against them.
 */
module Server {
  import opened Common
  import opened Texture
  import opened Vectors
  import opened Neighbours
  import opened Decision
  import opened Pipeline

  /** What the start-up loader finds at a model path. */
  datatype StoredFile = Absent | Unreadable | Pickled(data: Matrix)

  /**
   * load_model: the transpose of the pickled matrix, or None when the file
   * is missing or cannot be unpickled. Each pickled row (one exemplar)
   * becomes one reference column.
   */
  function LoadModel(file: StoredFile): (r: Option<Matrix>)
    requires file.Pickled? ==> Valid(file.data)
    ensures r.Some? <==> file.Pickled?
    ensures r.Some? ==> Valid(r.value) && r.value.cols == file.data.rows && r.value.rows == file.data.cols
    ensures r.Some? ==> forall j :: 0 <= j < r.value.cols ==> Column(r.value, j) == file.data.cells[j]
  {
    match file
    case Pickled(data) =>
      TransposeColumns(data);
      Some(Transpose(data))
    case _ => None
  }

  /**
   * predict_image: process and vectorise the image first, then fail if the
   * image model is not loaded, then look up and label.
   */
  method PredictImage<K>(model: Option<Matrix>, gray: Grid<byte>, filters: seq<K>, filter2D: (Grid<byte>, K) -> Grid<byte>)
    returns (r: Result<Verdict>)
    requires model.Some? ==> Valid(model.value)
    requires Shaped(gray, ImageSide, ImageSide) && KeepsShape(gray, filters, filter2D)
    ensures model.None? ==> r == Err(ModelNotLoaded)
    ensures model.Some? ==> r == ImageOutcome(model.value, gray, filters, filter2D)
  {
    var tst := ExtractQuery(gray, filters, filter2D);
    if model.None? {
      return Err(ModelNotLoaded);
    }
    var n := CalcWt(model.value, tst);
    if n.Err? {
      return Err(n.error);
    }
    r := Ok(Verdict(ImageLabel(n.value), n.value as real));
  }

  /**
   * predict_audio: sum the coefficient rows first, then fail if the audio
   * model is not loaded, then look up and label.
   */
  method PredictAudio(model: Option<Matrix>, mfcc: Grid<int>) returns (r: Result<Verdict>)
    requires model.Some? ==> Valid(model.value)
    ensures model.None? ==> r == Err(ModelNotLoaded)
    ensures model.Some? ==> r == AudioOutcome(model.value, mfcc)
  {
    var tst := RowSums(mfcc);
    if model.None? {
      return Err(ModelNotLoaded);
    }
    var n := CalcWt(model.value, tst);
    if n.Err? {
      return Err(n.error);
    }
    r := Ok(Verdict(AudioLabel(n.value), n.value as real));
  }

  /**
   * The service's video verdict: a stream without frames is an error;
   * otherwise the score is the mean of the codes of the first 100 frames at
   * most, and the label is NORMAL exactly when twice their sum is at most
   * their number (a mean of at most 0.5).
   */
  function VideoVerdict<K>(model: Matrix, frames: seq<Grid<byte>>, filters: seq<K>, filter2D: (Grid<byte>, K) -> Grid<byte>)
    : (r: Result<Verdict>)
    requires Valid(model) && FramesFit(frames, filters, filter2D)
    ensures frames == [] ==> r == Err(NoFrames)
    ensures r.Ok? <==> frames != [] && VideoCodes(model, frames, filters, filter2D).Ok?
    ensures r.Err? && frames != [] ==> VideoCodes(model, frames, filters, filter2D) == Err(r.error)
    ensures r.Ok? ==>
      var codes := VideoCodes(model, frames, filters, filter2D).value;
      r.value.score == Mean(codes) && (r.value.result == Normal <==> 2 * Total(codes) <= |codes|)
  {
    var codes := VideoCodes(model, frames, filters, filter2D);
    if codes.Err? then Err(codes.error)
    else if codes.value == [] then Err(NoFrames)
    else
      MeanLabelNormalIff(codes.value);
      Ok(Verdict(MeanLabel(Mean(codes.value)), Mean(codes.value)))
  }

  /**
   * predict_video: fail if the video model is not loaded, then read frames
   * until the stream ends, classifying each one and stopping after the 100th.
   */
  method PredictVideo<K>(model: Option<Matrix>, frames: seq<Grid<byte>>, filters: seq<K>, filter2D: (Grid<byte>, K) -> Grid<byte>)
    returns (r: Result<Verdict>)
    requires model.Some? ==> Valid(model.value)
    requires FramesFit(frames, filters, filter2D)
    ensures model.None? ==> r == Err(ModelNotLoaded)
    ensures model.Some? ==> r == VideoVerdict(model.value, frames, filters, filter2D)
  {
    if model.None? {
      return Err(ModelNotLoaded);
    }
    var trr := model.value;
    ghost var lookups := FrameLookups(trr, Capped(frames), filters, filter2D);
    var codes: seq<nat> := [];
    var ij := 0;
    while true
      invariant 0 <= ij <= |frames| && ij < MaxFrames
      invariant Codes(lookups[..ij]) == Ok(codes)
      decreases |frames| - ij
    {
      if ij >= |frames| {
        break;
      }
      FrameLookupAt(trr, frames, filters, filter2D, ij);
      var frame := frames[ij];
      ij := ij + 1;
      var tst := ExtractQuery(frame, filters, filter2D);
      var n := CalcWt(trr, tst);
      CodesStep(lookups, ij - 1);
      if n.Err? {
        CodesFailureSticks(lookups, ij);
        assert lookups[..|lookups|] == lookups;
        return Err(n.error);
      }
      codes := codes + [FrameCode(n.value)];
      if ij >= MaxFrames {
        break;
      }
    }
    assert lookups[..ij] == lookups;
    if |codes| == 0 {
      return Err(NoFrames);
    }
    var mean := Mean(codes);
    r := Ok(Verdict(MeanLabel(mean), mean));
  }
}
