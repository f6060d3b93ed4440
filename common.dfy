/** Types shared by every stage of the classification pipeline. */
module Common {

  /** An 8-bit pixel value, as held by the uint8 grayscale images and filter responses. */
  newtype byte = x: int | 0 <= x < 256

  /** A two-dimensional array stored row by row. */
  type Grid<T> = seq<seq<T>>

  /** The failures the pipeline reports to its caller. */
  datatype Error =
    | ModelNotLoaded    // the modality's reference matrix is unavailable
    | ShapeMismatch     // the query and a reference column cannot be subtracted
    | EmptyReference    // the reference matrix has no columns: argmin of nothing
    | NoFrames          // no video frame could be read
    | UnknownModality   // the modality name is not a key of the model table
    | DownloadFailed    // the reference file is missing from remote storage
    | LoadFailed        // the stored reference file cannot be unpickled

  datatype Result<T> = Ok(value: T) | Err(error: Error)

  datatype Option<T> = None | Some(value: T)

  /** `g` has exactly `h` rows of `w` entries each. */
  predicate Shaped<T>(g: Grid<T>, h: nat, w: nat) {
    |g| == h && forall i :: 0 <= i < h ==> |g[i]| == w
  }

  /** The row length of `g`, read off its first row (0 for an empty grid). */
  function Width<T>(g: Grid<T>): nat {
    if g == [] then 0 else |g[0]|
  }

  /** Every row of `g` has the same length, as in a numpy 2-D array. */
  predicate Rectangular<T>(g: Grid<T>) {
    Shaped(g, |g|, Width(g))
  }

  /** The sum of a sequence of reals. */
  function Sum(s: seq<real>): real {
    if s == [] then 0.0 else s[0] + Sum(s[1..])
  }

  /** The sum of a sequence of integers. */
  function Total(s: seq<int>): int {
    if s == [] then 0 else s[0] + Total(s[1..])
  }

  function Min(a: int, b: int): int {
    if a <= b then a else b
  }
}
