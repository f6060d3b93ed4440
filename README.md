# Deepfake detection pipeline: a Dafny model

This project models the classification core of a deepfake detector, which
runs in two deployments. Both deployments classify an uploaded image, audio
clip or video by nearest-neighbour lookup against a reference matrix.

- The local Flask service is `server.py`.
- The Firebase function deployment is `functions/main.py`.
- The front end has an offline stand-in, `frontend/src/lib/simulation.js`.

The pipeline has these stages:

- **Filter bank (`build_filters`).** Sixteen Gabor kernels, one per
  orientation step of pi/16. Each is divided by 1.5 times its element sum
  (`FilterBank`).
- **Texture response (`process`).** A zero accumulator of the image's shape
  is folded in place with the element-wise maximum of every kernel's 8-bit
  response (`Texture`). The accumulator is an `array2`.
- **Vectorisation.**
  - Image and video: the response surface is flattened row by row.
  - Audio: the cepstral coefficient matrix is summed over time, one sum per
    coefficient (`Vectors`).
- **Lookup (`Calc_Wt`).** The distance from the query to every column of
  the reference matrix, then the first index of the smallest one, as
  `np.argmin` picks it (`Neighbours`).
- **Decision.**
  - Image: an index below 250 is FAKE.
  - Audio: an index below 100 is FAKE.
  - Video: each of at most 100 frames gets the code floor(n / 2455). The
    video is NORMAL when the mean code is at most 0.5 (`Decision`).
  - The image/audio and video polarities are opposite in the code. They are
    kept as they are.
- **Deployments.**
  - `Pipeline` holds the steps the deployments share word for word.
  - `Server` models the service. It loads its matrices once at start-up and
    may hold none.
  - `Functions` models the function deployment. Its `ModelStore` class is
    the lazy three-slot cache that downloads and unpickles on first use.
  - `Deployments` compares the two video aggregations. They agree on every
    stream with frames. On a stream without frames the service reports an
    error and the function answers NORMAL.
- **Simulation.** The front end's file-name rule (`Simulation`).

The shared code in `functions/main.py` (lines 26-54) repeats `server.py`
(lines 27-55) line for line, apart from comments, so it is modelled once.
The table cites `server.py` for it.

Foreign library calls are parameters of the model:

- OpenCV's `getGaborKernel` is `gabor`.
- OpenCV's `filter2D` is `filter2D`. It must return a surface of the
  image's shape.
- Image reading, resizing, blurring and grey conversion are replaced by the
  grayscale image they produce.
- librosa's MFCC is replaced by the coefficient matrix it produces.
- The video capture is replaced by the sequence of its frames.
- The pickled files are replaced by the matrix they hold, or its absence.
- The remote bucket and the scratch directory are maps from file names to
  contents.

## Model

| member | source | states |
|---|---|---|
| FilterBank.BuildFilters | server.py:27-34 | exactly 16 kernels; kernel i is the normalised Gabor kernel for orientation i*pi/16 with size 11, sigma 4, wavelength 10, aspect 0.5, phase 0 |
| FilterBank.Normalise | server.py:31-32 | finite exactly when the raw sum is non-zero; then same shape, every entry is the raw entry divided by 1.5 times the raw sum, and the kernel sums to 1/1.5 |
| FilterBank.Divide | server.py:32 | same shape, and multiplying each entry back by the divisor gives the raw entry |
| FilterBank.GridSumDivide | server.py:32 | dividing every element by d divides the element sum by d |
| FilterBank.SumDivide | server.py:32 | dividing every element of a row by d divides its sum by d |
| Texture.Max | server.py:40 | the element-wise maximum is an upper bound of both operands and equal to one of them |
| Texture.Responses | server.py:38-39 | one 8-bit response per kernel, the k-th being `filter2D` of the image with kernel k, in bank order; when `filter2D` keeps the image's shape, so do all the responses |
| Texture.MaxAt | server.py:37-40 | the accumulator at (i, j) after the in-order fold is at least every response there |
| Texture.MaxSurface | server.py:37-41 | the response surface has the image's shape |
| Texture.MaxAtIsMaximum | server.py:37-40 | each accumulated pixel is at least every kernel's response there, and is 0 or one of those responses |
| Texture.MaxAtOrderFree | server.py:38-40 | the accumulated pixel depends only on which responses occur, not their order |
| Texture.ProcessOrderFree | server.py:38-40 | any permutation of the filter bank gives the same response surface |
| Texture.Process | server.py:36-41 | returns a fresh array of the image's shape whose every entry is the maximum of 0 and the responses at that pixel |
| Texture.Contents | server.py:173 | the array read row by row has the array's shape |
| Vectors.Flatten | server.py:173-175 | the flattened vector starts with the first row and is at least as long as any row |
| Vectors.FlattenLength | server.py:173 | a flattened h-by-w surface has h*w entries |
| Vectors.FlattenAt | server.py:173-175 | row-major order: entry i*w+j of the flattened surface is surface[i][j] |
| Vectors.Widen | server.py:173 | widening keeps the length and every entry, so the query entries lie in 0..255 |
| Vectors.RowSums | server.py:204 | the audio query has one entry per coefficient |
| Vectors.TotalAppend | server.py:204 | the sum over a concatenation is the sum of the sums |
| Vectors.RowSumsAdditive | server.py:204 | the audio feature of two consecutive stretches is the sum of their features |
| Neighbours.Column | server.py:50 | a column has one entry per row |
| Neighbours.Transpose | server.py:68 | the transpose swaps the dimensions and stays well formed |
| Neighbours.TransposeColumns | server.py:68 | column j of the transposed matrix is row j of the pickled one |
| Neighbours.TransposeTwice | server.py:68 | transposing twice gives the original matrix back |
| Neighbours.Subtract | server.py:51 | broadcast subtraction: length of the longer operand (a length-1 operand is stretched), element-wise difference when lengths agree |
| Neighbours.SquaredNorm | server.py:52 | the squared norm is non-negative |
| Neighbours.SquaredNormZero | server.py:52 | the norm is zero exactly for the zero vector |
| Neighbours.Distance | server.py:50-52 | the distance from the query to column j is non-negative, and for a query of the column's length it is zero exactly when the query equals column j |
| Neighbours.Distances | server.py:49-53 | one distance per column |
| Neighbours.ArgMin | server.py:54 | an index of a minimum, and no earlier entry is as small (first minimum) |
| Neighbours.Nearest | server.py:43-55 | succeeds exactly when there is a column and the query broadcasts; no columns gives EmptyReference, otherwise a bad length gives ShapeMismatch; the result is in [0, C), minimises the distance, and no earlier column is as close |
| Neighbours.NearestToOwnColumn | server.py:49-54 | querying with column j finds an identical column at distance 0 at or before j, and j itself when no earlier column equals it |
| Neighbours.CalcWt | server.py:43-55 | the column loop returns the nearest column or the same error |
| Decision.ImageLabel | server.py:182-184 | FAKE exactly when the index is below 250 |
| Decision.AudioLabel | server.py:213-215 | FAKE exactly when the index is below 100 |
| Decision.FrameCode | server.py:259 | the frame code c is the band holding n: c*2455 <= n < (c+1)*2455 |
| Decision.Mean | server.py:270 | the mean of the frame codes is non-negative, and times the number of codes it gives their sum |
| Decision.TotalNonNegative | server.py:270 | the sum of the frame codes is never negative |
| Decision.MeanLabel | server.py:281 | NORMAL exactly when the mean code is at most 0.5 |
| Decision.MeanLabelNormalIff | server.py:270-281 | the mean-code label is NORMAL exactly when twice the sum of the codes is at most their number |
| Pipeline.SurfaceQuery | server.py:171-175 | every entry of the image query is an 8-bit value in 0..255 |
| Pipeline.SurfaceIndex | server.py:180 | the lookup succeeds exactly when the matrix has a column and the h*w query broadcasts, and then names a column |
| Pipeline.SurfaceQueryLength | server.py:173 | the image query has h*w entries (65536 for the 256-by-256 image) |
| Pipeline.SurfaceQueryAt | server.py:171-175 | query entry i*w+j is the maximum response at pixel (i, j) |
| Pipeline.ExtractQuery | server.py:171-175 | processing then reshaping yields the row-major response surface |
| Pipeline.Capped | server.py:262-263 | at most the first 100 frames, unchanged and in order |
| Pipeline.FrameLookups | server.py:251-257 | one lookup per frame |
| Pipeline.FrameLookupAt | server.py:247-257 | every classified frame is well formed and its lookup is its nearest column |
| Pipeline.Codes | server.py:257-260 | a successful run of the loop yields one code per frame |
| Pipeline.CodesSpec | server.py:241-263 | the codes succeed exactly when every lookup does, code i is the band of lookup i, and a failure carries the error of the first failing frame |
| Pipeline.CodesFailureSticks | server.py:257 | once a frame's lookup fails, later frames do not change the outcome |
| Pipeline.CodesStep | server.py:257-260 | one more frame appends its code, unless an earlier or this frame fails |
| Pipeline.ImageOutcome | server.py:180-185 | succeeds exactly when the matrix has a column and 65536 broadcasts against its rows; the score is the nearest index; FAKE exactly when it is below 250 |
| Pipeline.AudioOutcome | server.py:211-216 | succeeds exactly when the matrix has a column and the coefficient count broadcasts; the score is the nearest index; FAKE exactly when it is below 100 |
| Pipeline.VideoCodes | server.py:241-263 | a successful run yields min(frames, 100) codes |
| Pipeline.VideoCodesSpec | server.py:241-263 | the video codes succeed exactly when every classified frame's lookup does; code i is the band of frame i's nearest column; a failure is that of the first failing frame |
| Server.LoadModel | server.py:61-71 | a matrix exactly when the file holds a pickle; its columns are the pickled rows |
| Server.PredictImage | server.py:163-185 | no image model gives ModelNotLoaded; otherwise the image outcome |
| Server.PredictAudio | server.py:200-216 | no audio model gives ModelNotLoaded; otherwise the audio outcome |
| Server.VideoVerdict | server.py:267-283 | no frames gives NoFrames; otherwise succeeds exactly when the codes do, the score is their mean and the label is NORMAL exactly when twice their sum is at most their number |
| Server.PredictVideo | server.py:231-283 | no video model gives ModelNotLoaded; the capture loop yields the video verdict |
| Functions.LoadStep | functions/main.py:58-87 | a successful load leaves the returned matrix in the requested slot; a failed load changes no slot and only happens while that slot is empty |
| Functions.WithSlot | functions/main.py:83-85 | storing sets the requested slot only |
| Functions.LoadStepValid | functions/main.py:58-87 | loading keeps the cache well formed and returns a well formed matrix |
| Functions.LoadUnknownModality | functions/main.py:62 | an unknown modality fails with nothing changed |
| Functions.LoadCached | functions/main.py:66-68 | a filled slot is returned with nothing changed |
| Functions.LoadDownloadsOnlyWhenAbsent | functions/main.py:71-76 | scratch storage changes only by fetching the requested file when it is absent |
| Functions.LoadFillsOnlyItsSlot | functions/main.py:79-87 | after a load the requested slot holds exactly the returned matrix, the other slots are unchanged, and its columns are the stored rows |
| Functions.LoadIdempotent | functions/main.py:58-87 | a second load returns the same matrix and changes nothing |
| Functions.ModelStore.constructor | functions/main.py:14-16 | a cold start has all three slots empty |
| Functions.ModelStore.Load | functions/main.py:58-87 | the new slots and scratch files and the result are those of the load transition |
| Functions.PredictImage | functions/main.py:120-142 | loads the image matrix first; a load error is returned, otherwise the image outcome |
| Functions.PredictAudio | functions/main.py:158-168 | loads the audio matrix first; a load error is returned, otherwise the audio label |
| Functions.VideoLabel | functions/main.py:206-208 | no frames gives NORMAL; an error exactly when the codes fail; otherwise NORMAL exactly when twice the sum of the codes is at most their number |
| Functions.ClassifyFrames | functions/main.py:185-208 | the capture loop, stopping at the end of the stream or after 100 frames, yields the video label |
| Functions.PredictVideo | functions/main.py:183-210 | loads the video matrix first; a load error is returned, otherwise the video label |
| Deployments.VideoDeploymentsAgree | functions/main.py:207-208 | on a stream with frames both deployments fail alike or give the same label |
| Deployments.VideoDeploymentsDifferOnEmptyStream | functions/main.py:207 | without frames the service gives NoFrames and the function gives NORMAL |
| Simulation.Lower | frontend/src/lib/simulation.js:5 | upper-case letters move to lower case, everything else is kept |
| Simulation.LowerCase | frontend/src/lib/simulation.js:5 | same length, no upper-case letter left, each character kept or lowered |
| Simulation.LowerCaseIdempotent | frontend/src/lib/simulation.js:5 | lower-casing twice equals lower-casing once |
| Simulation.Includes | frontend/src/lib/simulation.js:9-12 | `includes` holds only when the sought string is no longer than the name |
| Simulation.IncludesEmpty | frontend/src/lib/simulation.js:9-12 | every string includes the empty string, as `String.prototype.includes` answers |
| Simulation.IncludesInfix | frontend/src/lib/simulation.js:9-12 | a string includes every infix of it: t is found in p + t + r |
| Simulation.Status | frontend/src/lib/simulation.js:9-17 | the status is FAKE or NORMAL, and FAKE whenever the lower-cased name contains 'fake' |
| Simulation.Simulate | frontend/src/lib/simulation.js:5-24 | status FAKE or NORMAL; 'fake' in any case wins; otherwise 'real' or 'normal' gives NORMAL; otherwise NORMAL exactly when the draw exceeds 0.3; the anomalies message exactly for FAKE |
| Simulation.DeepfakeContainsFake | frontend/src/lib/simulation.js:9 | a name containing 'deepfake' contains 'fake' |
| Simulation.IncludesLowerCase | frontend/src/lib/simulation.js:5-9 | an occurrence survives lower-casing both strings |
| Simulation.SimulateIgnoresCase | frontend/src/lib/simulation.js:5-16 | the verdict depends only on the lower-cased name |
| Simulation.UpperCaseFakeIsFake | frontend/src/lib/simulation.js:5-10 | a name containing 'FAKE' is FAKE |
| Simulation.KeywordIgnoresDraw | frontend/src/lib/simulation.js:9-16 | a name matching a keyword gets the same analysis whatever the draw |

## Left out

- HTTP routing, CORS, upload staging and JSON responses are left out as I/O plumbing. This covers `server.py` lines 104-160 and the request handling of `functions/main.py`. Reported errors are an `Error` value in place of a status code and message.
- The sqlite login and signup endpoints are left out: they are SQL I/O.
- The internals of OpenCV and librosa are left out: they are foreign numerics. `getGaborKernel`, `filter2D`, `imread`, `resize`, `medianBlur`, `cvtColor`, `load` and `mfcc` are parameters or given inputs.
- A missing upload file is left out as request plumbing.
- An unreadable image makes `imread` return None, and `cv2.resize` then raises inside the foreign call. This failure is not modelled; the image path starts from the decoded grayscale image.
- An unreadable video does not raise: `cap.read()` returns no frame, so the capture loop ends with no codes (`server.py` lines 236-244, `functions/main.py` lines 185-192). The model covers this as the empty frame sequence: `Server.VideoVerdict` gives `NoFrames` and `Functions.VideoLabel` gives NORMAL.
- Video capture is a finite sequence of frames. A read failure is the end of that sequence.
  - The function deployment reads a 101st frame before its count test stops the loop. That read has no effect on the result and is not modelled.
- `pickle.load`, `os.path.exists` and the storage client are left out as external persistence.
  - The service's file is absent, unreadable, or a pickled matrix.
  - The function's files are maps from names to contents. A missing blob is `DownloadFailed` and leaves scratch storage unchanged. An unreadable pickle is `LoadFailed`.
- Neighbours.Distance: the source's `LA.norm` takes a square root; the model compares squared distances. The square root is strictly increasing on non-negative numbers, so the minimum and its first index are the same.
- Vectors.RowSums: feature values are integers rather than float32. Rounding in the float sums and norms is not modelled.
- Texture.Process: the 8-bit responses of `filter2D` are given. Saturation inside `filter2D` belongs to the foreign call.
- FilterBank.Normalise: the kernel entries are exact reals, not float32.
  - A raw sum of zero gives `NonFinite`, standing for the infinities and NaNs the division produces.
  - The source does not check this case; a zero sum fills the kernel with infinities and NaNs.
- Decision.Mean: `np.mean` in floating point is exact division here. The label comparison is proved equivalent to an integer comparison.
- Neighbours.Subtract: reference entries are taken to be integers wider than uint8 (or floats), so the subtraction is exact and no wrap-around modulo 256 occurs in any modality. The image and video queries are uint8 (`zeros_like` of the uint8 grayscale image); if a pickled reference matrix were also uint8, `np.subtract` would wrap, and that is not modelled.
- Neighbours.Subtract: numpy broadcasting is modelled for the one-dimensional vectors `Calc_Wt` subtracts. Equal lengths, or one operand of length 1, broadcast; anything else is `ShapeMismatch`.
- Simulation.LowerCase: `toLowerCase` is modelled for ASCII letters only; full Unicode case mapping is not.
- The confidence values of `simulateAnalysis` are left out: they are random. So are its 2.5-second timer and the Promise wrapper.
- The text of error messages and the exception types are left out; each failure is one `Error` constructor.
- Concurrency is left out: the cache has no locking in the source, and each function instance runs one request at a time in this model.
- Vectors.RowSums: librosa's `mfcc` returns a coefficient-by-time matrix and the code sums along `axis=1`, one sum per coefficient; rows are coefficients.
