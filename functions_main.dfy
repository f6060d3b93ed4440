/**
 * The serverless deployment: a per-instance cache of the three reference
 * matrices, filled on first use from local scratch storage or, failing
 * that, from the remote bucket; and the image, audio and video predictions
 * that load their matrix before classifying.
 */
module Functions {
  import opened Common
  import opened Texture
  import opened Vectors
  import opened Neighbours
  import opened Decision
  import opened Pipeline

  /** The content of a model file, in the bucket or in scratch storage. */
  datatype Blob = Pickled(data: Matrix) | Corrupt

  /** Every pickled matrix among the files is well formed. */
  predicate BlobsValid(files: map<string, Blob>) {
    forall f :: f in files && files[f].Pickled? ==> Valid(files[f].data)
  }

  /** The modality names and the file each one's reference matrix is stored in. */
  const ModelFiles: map<string, string> := map["image" := "model.h5", "audio" := "model2.h5", "video" := "model3.h5"]

  /** A snapshot of the instance's state: the three slots and the scratch files. */
  datatype Cache = Cache(image: Option<Matrix>, audio: Option<Matrix>, video: Option<Matrix>, tmp: map<string, Blob>)

  predicate CacheValid(c: Cache) {
    (c.image.Some? ==> Valid(c.image.value)) &&
    (c.audio.Some? ==> Valid(c.audio.value)) &&
    (c.video.Some? ==> Valid(c.video.value)) &&
    BlobsValid(c.tmp)
  }

  /** The slot that caches a modality's matrix. */
  function SlotOf(c: Cache, modality: string): Option<Matrix>
    requires modality in ModelFiles
  {
    if modality == "image" then c.image
    else if modality == "audio" then c.audio
    else c.video
  }

  /** The cache with one modality's slot set. */
  function WithSlot(c: Cache, modality: string, m: Matrix): (d: Cache)
    requires modality in ModelFiles
    ensures SlotOf(d, modality) == Some(m) && d.tmp == c.tmp
    ensures forall other :: other in ModelFiles && other != modality ==> SlotOf(d, other) == SlotOf(c, other)
  {
    if modality == "image" then c.(image := Some(m))
    else if modality == "audio" then c.(audio := Some(m))
    else c.(video := Some(m))
  }

  /**
   * load_model_from_storage as a transition: an unknown modality fails
   * before anything is touched; a filled slot is returned as it is;
   * otherwise the file is downloaded into scratch storage unless it is
   * already there, unpickled, transposed, stored in its slot and returned.
   */
  function LoadStep(c: Cache, modality: string, bucket: map<string, Blob>): (r: (Cache, Result<Matrix>))
    requires CacheValid(c) && BlobsValid(bucket)
    ensures r.1.Ok? ==> modality in ModelFiles && SlotOf(r.0, modality) == Some(r.1.value)
    ensures r.1.Err? ==> r.0.image == c.image && r.0.audio == c.audio && r.0.video == c.video
    ensures r.1.Err? && modality in ModelFiles ==> SlotOf(c, modality).None?
  {
    if modality !in ModelFiles then (c, Err(UnknownModality))
    else if SlotOf(c, modality).Some? then (c, Ok(SlotOf(c, modality).value))
    else
      var file := ModelFiles[modality];
      if file !in c.tmp && file !in bucket then (c, Err(DownloadFailed))
      else
        var tmp := if file in c.tmp then c.tmp else c.tmp[file := bucket[file]];
        match tmp[file]
        case Corrupt => (c.(tmp := tmp), Err(LoadFailed))
        case Pickled(data) =>
          var m := Transpose(data);
          (WithSlot(c.(tmp := tmp), modality, m), Ok(m))
  }

  /** Loading keeps every cached and stored matrix well formed. */
  lemma LoadStepValid(c: Cache, modality: string, bucket: map<string, Blob>)
    requires CacheValid(c) && BlobsValid(bucket)
    ensures CacheValid(LoadStep(c, modality, bucket).0)
    ensures LoadStep(c, modality, bucket).1.Ok? ==> Valid(LoadStep(c, modality, bucket).1.value)
  {
    if modality in ModelFiles && SlotOf(c, modality).None? {
      var file := ModelFiles[modality];
      if file in c.tmp || file in bucket {
        var tmp := if file in c.tmp then c.tmp else c.tmp[file := bucket[file]];
        assert BlobsValid(tmp);
      }
    }
  }

  /** A modality name that is not a key of the model table fails before any state is touched. */
  lemma LoadUnknownModality(c: Cache, modality: string, bucket: map<string, Blob>)
    requires CacheValid(c) && BlobsValid(bucket)
    requires modality !in ModelFiles
    ensures LoadStep(c, modality, bucket) == (c, Err(UnknownModality))
  {}

  /**
   * A modality whose slot is filled is answered from memory: no download,
   * no load, no slot changes.
   */
  lemma LoadCached(c: Cache, modality: string, bucket: map<string, Blob>)
    requires CacheValid(c) && BlobsValid(bucket)
    requires modality in ModelFiles && SlotOf(c, modality).Some?
    ensures LoadStep(c, modality, bucket) == (c, Ok(SlotOf(c, modality).value))
  {}

  /**
   * After a successful load the requested slot holds exactly the returned
   * matrix, the other two slots are unchanged, and the returned matrix's
   * columns are the rows of the matrix stored for the modality.
   */
  lemma LoadFillsOnlyItsSlot(c: Cache, modality: string, bucket: map<string, Blob>)
    requires CacheValid(c) && BlobsValid(bucket)
    requires LoadStep(c, modality, bucket).1.Ok?
    ensures modality in ModelFiles
    ensures var (d, r) := LoadStep(c, modality, bucket);
      SlotOf(d, modality) == Some(r.value) &&
      forall other :: other in ModelFiles && other != modality ==> SlotOf(d, other) == SlotOf(c, other)
    ensures SlotOf(c, modality).None? ==>
      var r := LoadStep(c, modality, bucket).1;
      var stored := LoadStep(c, modality, bucket).0.tmp[ModelFiles[modality]];
      stored.Pickled? && Valid(stored.data) && r.value.cols == stored.data.rows &&
      forall j :: 0 <= j < r.value.cols ==> Column(r.value, j) == stored.data.cells[j]
  {
    if SlotOf(c, modality).None? {
      var file := ModelFiles[modality];
      var tmp := if file in c.tmp then c.tmp else c.tmp[file := bucket[file]];
      assert BlobsValid(tmp);
      TransposeColumns(tmp[file].data);
    }
  }

  /**
   * Scratch storage changes only by downloading the requested file when it
   * is absent; a file already present is never fetched again.
   */
  lemma LoadDownloadsOnlyWhenAbsent(c: Cache, modality: string, bucket: map<string, Blob>)
    requires CacheValid(c) && BlobsValid(bucket)
    ensures var d := LoadStep(c, modality, bucket).0;
      d.tmp == c.tmp ||
      (modality in ModelFiles && ModelFiles[modality] !in c.tmp && ModelFiles[modality] in bucket &&
       d.tmp == c.tmp[ModelFiles[modality] := bucket[ModelFiles[modality]]])
  {}

  /** Loading a second time returns the same matrix and changes nothing. */
  lemma {:induction false} LoadIdempotent(c: Cache, modality: string, bucket: map<string, Blob>)
    requires CacheValid(c) && BlobsValid(bucket)
    requires LoadStep(c, modality, bucket).1.Ok?
    ensures var (d, r) := LoadStep(c, modality, bucket);
      CacheValid(d) && LoadStep(d, modality, bucket) == (d, r)
  {
    LoadStepValid(c, modality, bucket);
    LoadFillsOnlyItsSlot(c, modality, bucket);
  }

  /** The module globals of one function instance. */
  class ModelStore {
    var image: Option<Matrix>
    var audio: Option<Matrix>
    var video: Option<Matrix>
    /** The files in the instance's scratch storage. */
    var tmp: map<string, Blob>

    function State(): Cache
      reads this
    {
      Cache(image, audio, video, tmp)
    }

    ghost predicate Consistent()
      reads this
    {
      CacheValid(State())
    }

    /** A cold start: no slot filled; scratch storage may keep files from an earlier run. */
    constructor (files: map<string, Blob>)
      requires BlobsValid(files)
      ensures Consistent()
      ensures image == None && audio == None && video == None && tmp == files
    {
      image, audio, video := None, None, None;
      tmp := files;
    }

    /** load_model_from_storage. */
    method Load(modality: string, bucket: map<string, Blob>) returns (r: Result<Matrix>)
      requires Consistent() && BlobsValid(bucket)
      modifies this
      ensures Consistent()
      ensures (State(), r) == LoadStep(old(State()), modality, bucket)
    {
      LoadStepValid(State(), modality, bucket);
      if modality !in ModelFiles {
        return Err(UnknownModality);
      }
      var file := ModelFiles[modality];
      if modality == "image" && image.Some? {
        return Ok(image.value);
      }
      if modality == "audio" && audio.Some? {
        return Ok(audio.value);
      }
      if modality == "video" && video.Some? {
        return Ok(video.value);
      }
      if file !in tmp {
        if file !in bucket {
          return Err(DownloadFailed);
        }
        tmp := tmp[file := bucket[file]];
      }
      var blob := tmp[file];
      if blob.Corrupt? {
        return Err(LoadFailed);
      }
      var m := Transpose(blob.data);
      if modality == "image" {
        image := Some(m);
      } else if modality == "audio" {
        audio := Some(m);
      } else if modality == "video" {
        video := Some(m);
      }
      return Ok(m);
    }
  }

  /** predict_image: load the image matrix, then process, vectorise, look up and label. */
  method PredictImage<K>(store: ModelStore, bucket: map<string, Blob>,
                         gray: Grid<byte>, filters: seq<K>, filter2D: (Grid<byte>, K) -> Grid<byte>)
    returns (r: Result<Verdict>)
    requires store.Consistent() && BlobsValid(bucket)
    requires Shaped(gray, ImageSide, ImageSide) && KeepsShape(gray, filters, filter2D)
    modifies store
    ensures store.Consistent()
    ensures var (c, m) := LoadStep(old(store.State()), "image", bucket);
      store.State() == c &&
      r == if m.Err? then Err(m.error) else ImageOutcome(m.value, gray, filters, filter2D)
  {
    LoadStepValid(store.State(), "image", bucket);
    var model := store.Load("image", bucket);
    if model.Err? {
      return Err(model.error);
    }
    var tst := ExtractQuery(gray, filters, filter2D);
    var n := CalcWt(model.value, tst);
    if n.Err? {
      return Err(n.error);
    }
    r := Ok(Verdict(ImageLabel(n.value), n.value as real));
  }

  /** predict_audio: load the audio matrix, then sum, look up and label; only the label is returned. */
  method PredictAudio(store: ModelStore, bucket: map<string, Blob>, mfcc: Grid<int>) returns (r: Result<Label>)
    requires store.Consistent() && BlobsValid(bucket)
    modifies store
    ensures store.Consistent()
    ensures var (c, m) := LoadStep(old(store.State()), "audio", bucket);
      store.State() == c &&
      r == if m.Err? then Err(m.error)
           else match AudioOutcome(m.value, mfcc) case Err(e) => Err(e) case Ok(v) => Ok(v.result)
  {
    LoadStepValid(store.State(), "audio", bucket);
    var model := store.Load("audio", bucket);
    if model.Err? {
      return Err(model.error);
    }
    var tst := RowSums(mfcc);
    var n := CalcWt(model.value, tst);
    if n.Err? {
      return Err(n.error);
    }
    r := Ok(AudioLabel(n.value));
  }

  /**
   * The function's video label: the mean of the codes of the first 100
   * frames at most, taken as 0 when there are none, so that a stream
   * without frames is NORMAL; otherwise NORMAL exactly when twice the sum of
   * the codes is at most their number.
   */
  function VideoLabel<K>(model: Matrix, frames: seq<Grid<byte>>, filters: seq<K>, filter2D: (Grid<byte>, K) -> Grid<byte>)
    : (r: Result<Label>)
    requires Valid(model) && FramesFit(frames, filters, filter2D)
    ensures frames == [] ==> r == Ok(Normal)
    ensures r.Err? <==> VideoCodes(model, frames, filters, filter2D).Err?
    ensures r.Err? ==> VideoCodes(model, frames, filters, filter2D) == Err(r.error)
    ensures r.Ok? && frames != [] ==>
      var codes := VideoCodes(model, frames, filters, filter2D).value;
      (r.value == Normal <==> 2 * Total(codes) <= |codes|)
  {
    var codes := VideoCodes(model, frames, filters, filter2D);
    if codes.Err? then Err(codes.error)
    else if codes.value == [] then Ok(MeanLabel(0.0))
    else
      MeanLabelNormalIff(codes.value);
      Ok(MeanLabel(Mean(codes.value)))
  }

  /**
   * The capture loop of predict_video: stop when the stream ends or once 100
   * frames have been classified; the mean of no codes is taken as 0.
   */
  method ClassifyFrames<K>(trr: Matrix, frames: seq<Grid<byte>>, filters: seq<K>, filter2D: (Grid<byte>, K) -> Grid<byte>)
    returns (r: Result<Label>)
    requires Valid(trr) && FramesFit(frames, filters, filter2D)
    ensures r == VideoLabel(trr, frames, filters, filter2D)
  {
    ghost var lookups := FrameLookups(trr, Capped(frames), filters, filter2D);
    var codes: seq<nat> := [];
    var ij := 0;
    while true
      invariant 0 <= ij <= |frames| && ij <= MaxFrames
      invariant Codes(lookups[..ij]) == Ok(codes)
      decreases |frames| - ij
    {
      if ij >= |frames| || ij >= MaxFrames {
        break;
      }
      FrameLookupAt(trr, frames, filters, filter2D, ij);
      var frame := frames[ij];
      ij := ij + 1;
      var tst := ExtractQuery(frame, filters, filter2D);
      var n := CalcWt(trr, tst);
      CodesStep(lookups, ij - 1);
      if n.Err? {
        CodesFailureSticks(lookups, ij);
        assert lookups[..|lookups|] == lookups;
        return Err(n.error);
      }
      codes := codes + [FrameCode(n.value)];
    }
    assert lookups[..ij] == lookups;
    var mean := if |codes| > 0 then Mean(codes) else 0.0;
    r := Ok(MeanLabel(mean));
  }

  /** predict_video: load the video matrix, then classify the frames. */
  method PredictVideo<K>(store: ModelStore, bucket: map<string, Blob>,
                         frames: seq<Grid<byte>>, filters: seq<K>, filter2D: (Grid<byte>, K) -> Grid<byte>)
    returns (r: Result<Label>)
    requires store.Consistent() && BlobsValid(bucket)
    requires FramesFit(frames, filters, filter2D)
    modifies store
    ensures store.Consistent()
    ensures var (c, m) := LoadStep(old(store.State()), "video", bucket);
      store.State() == c &&
      r == if m.Err? then Err(m.error) else VideoLabel(m.value, frames, filters, filter2D)
  {
    LoadStepValid(store.State(), "video", bucket);
    var model := store.Load("video", bucket);
    if model.Err? {
      return Err(model.error);
    }
    r := ClassifyFrames(model.value, frames, filters, filter2D);
  }
}
