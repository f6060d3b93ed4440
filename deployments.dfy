/**
 * The two deployments run the same video pipeline but aggregate its codes
 * differently: they agree on every stream with at least one frame, and
 * disagree on a stream without frames, which the service rejects and the
 * function labels NORMAL.
 */
module Deployments {
  import opened Common
  import opened Neighbours
  import opened Decision
  import opened Pipeline
  import Server
  import Functions

  lemma VideoDeploymentsAgree<K>(model: Matrix, frames: seq<Grid<byte>>, filters: seq<K>, filter2D: (Grid<byte>, K) -> Grid<byte>)
    requires Valid(model) && FramesFit(frames, filters, filter2D) && frames != []
    ensures Server.VideoVerdict(model, frames, filters, filter2D).Ok? <==>
            Functions.VideoLabel(model, frames, filters, filter2D).Ok?
    ensures Server.VideoVerdict(model, frames, filters, filter2D).Ok? ==>
            Functions.VideoLabel(model, frames, filters, filter2D).value ==
            Server.VideoVerdict(model, frames, filters, filter2D).value.result
    ensures Server.VideoVerdict(model, frames, filters, filter2D).Err? ==>
            Functions.VideoLabel(model, frames, filters, filter2D).error ==
            Server.VideoVerdict(model, frames, filters, filter2D).error
  {}

  lemma VideoDeploymentsDifferOnEmptyStream<K>(model: Matrix, filters: seq<K>, filter2D: (Grid<byte>, K) -> Grid<byte>)
    requires Valid(model)
    ensures Server.VideoVerdict(model, [], filters, filter2D) == Err(NoFrames)
    ensures Functions.VideoLabel(model, [], filters, filter2D) == Ok(Normal)
  {}
}
