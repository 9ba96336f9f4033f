# reframe-endpoint, modelled in Dafny

The service turns landscape (16:9) talking-head videos into portrait (9:16)
crops that follow the person speaking. This project models:

- the per-frame camera-tracking logic of `reframe_video`. This covers the
  dead zone, the rank-weighted center history, the mouth-aperture speaker
  selection, the Haar-cascade fallback with its write-once anchor, the
  exponential step and the crop rectangle. It also covers the progress events
  and metrics of a run;
- the job bookkeeping of the HTTP service. This covers the stage-weighted
  progress percentage, the field merge of `_set`, and the filter/sort/limit
  kernel of `list_jobs`;
- the object-key and public-URL builders of the storage layer.

Modules, one concept each:

| module | file | models |
|---|---|---|
| `Wrappers` | wrappers.dfy | `Option` |
| `Extrema` | extrema.dfy | numpy `argmax`/`argmin` and `max(key=...)`: first index on ties |
| `Stabilizer` | stabilizer.dfy | `_apply_dead_zone`, the bounded deque, `_smooth_center`'s weighted average, the exponential step, crop geometry |
| `Speaker` | speaker.dfy | the aperture history and the active-speaker choice |
| `Cascade` | cascade.dfy | `_detect_faces_haar` and the Haar face score |
| `Tracking` | tracking.dfy | one frame of the tracking loop as a function of the state, and a run as a fold |
| `Reframer` | reframer.dfy | the loop itself: a `Tracker` class whose fields are the loop's locals, `ReframeFrames` (the frame loop) and `ReframeVideo` |
| `Jobs` | jobs.dfy | `_progress_for`, the `_jobs` table with `_set`, and `list_jobs` |
| `Spaces` | spaces.dfy | `make_key`, `public_url_for`, `splitext`, `strip('/')`, `rstrip('/')` |

The imperative parts of the source are imperative here:

- `_smooth_center` is `Reframer.WeightedMean`, a loop proved equal to
  `Stabilizer.WeightedAverage`.
- The frame loop's state is the `Reframer.Tracker` class. Each of its methods
  is proved to perform exactly the pure step `Tracking.Step` specifies.
- `_detect_faces_haar` is `Cascade.DetectFacesHaar`, with its two loops.
- `_jobs` is the `Jobs.JobTable` class.
- The filter loop of `list_jobs` is `Jobs.FilterJobs`.

Properties are then proved about the pure functions those methods are tied to.

Coordinates, apertures, weights and fractions are exact `real`s; floating-point
rounding is not modelled. Python's `//` on a positive divisor is Dafny's `/`.
`int()` of a float truncates toward zero (`Stabilizer.Trunc`).

Where the system's documentation and the code differ, the model follows the
code:

- the dead zone is 3% of each frame dimension (not 5%);
- the exponential step's factor is 0.08 (not 0.05);
- the center history holds 5 entries (not 7);
- the fallback anchor stores the raw detected center, not the stabilized one;
- it is assigned directly when first set;
- the landmark center is the mean of all landmarks;
- there is no head sub-box and no aspect-ratio term in the Haar score.

## Model

| member | source | states |
|---|---|---|
| Stabilizer.ApplyDeadZone | reframe_mediapipe_falante_v7.py:19-34 | if and only if both displacements are below 3% of width/height the current center is kept; otherwise the result is the detection, unchanged |
| Stabilizer.DeadZoneNeverOvershoots | reframe_mediapipe_falante_v7.py:24-34 | the gated center is never further from the current center than the detection, on either axis |
| Stabilizer.DeadZoneIdempotent | reframe_mediapipe_falante_v7.py:19-34 | gating an already gated center against the same reference returns it unchanged |
| Stabilizer.PushBounded | reframe_mediapipe_falante_v7.py:43 | appending to a deque with `maxlen`: the length grows by one up to the cap, and the last entry is the new item |
| Stabilizer.PushBoundedKeeps | reframe_mediapipe_falante_v7.py:43 | everything before the new item is the newest part of the old buffer (the oldest entries fall off the left) |
| Stabilizer.TotalWeightClosedForm | reframe_mediapipe_falante_v7.py:52-54 | the first k weights `(i+1)/n` sum to k(k+1)/(2n), so n entries weigh (n+1)/2 > 0 |
| Stabilizer.WeightedSumBounds | reframe_mediapipe_falante_v7.py:52-55 | if every coordinate lies in [lo, hi], the weighted sum lies between lo and hi times the total weight |
| Stabilizer.WeightedCoordinateBounds | reframe_mediapipe_falante_v7.py:52-57 | the weighted mean of one coordinate lies within any bounds of the history |
| Stabilizer.WeightedAverageWithin | reframe_mediapipe_falante_v7.py:45-58 | the smoothed center is a convex combination: each coordinate lies between bounds of the history's coordinates |
| Stabilizer.WeightedAverageOfConstant | reframe_mediapipe_falante_v7.py:45-58 | a history of identical points smooths to that point |
| Stabilizer.ExpStep | reframe_mediapipe_falante_v7.py:221 | the new center lies between the old center and the target on each axis, and a target equal to the old center leaves it unchanged |
| Stabilizer.ExpStepContracts | reframe_mediapipe_falante_v7.py:221 | each step closes exactly 8% of the remaining gap to the target, on both axes |
| Stabilizer.Trunc | reframe_mediapipe_falante_v7.py:225 | `int()` truncates toward zero: within 1 of its argument, never past it away from zero |
| Stabilizer.CropWidth | reframe_mediapipe_falante_v7.py:114-115 | crop width is floor(9·height/16), at most the height |
| Stabilizer.CropRect | reframe_mediapipe_falante_v7.py:224-226 | full-height crop of width `crop_w`; y1 = 0; x1 is the truncated `cx - crop_w/2` clamped to the nearer edge of [0, width - crop_w] (0 when left of it, width - crop_w when right of it), and 0 when the crop is wider than the frame |
| Extrema.FirstArgMax | reframe_mediapipe_falante_v7.py:178 | the index holds the largest element and every earlier element is strictly smaller |
| Extrema.FirstArgMin | reframe_mediapipe_falante_v7.py:169 | the index holds the smallest element and every earlier element is strictly larger |
| Cascade.FaceOf | reframe_mediapipe_falante_v7.py:72-74 | a face keeps its box size and its center is the box midpoint rounded down on each axis |
| Cascade.FacesOf | reframe_mediapipe_falante_v7.py:71-83 | one face per box, in order |
| Cascade.DetectFacesHaar | reframe_mediapipe_falante_v7.py:60-85 | the frontal faces, then the profile faces, each the face of its box |
| Cascade.FaceCenterInsideBox | reframe_mediapipe_falante_v7.py:72-73 | a box of non-negative size contains its own face center |
| Cascade.CenterScoreRange | reframe_mediapipe_falante_v7.py:201 | the centrality factor lies in (0, 1] and is 1 exactly on the midline `width // 2` |
| Cascade.ScoreBounds | reframe_mediapipe_falante_v7.py:198-202 | a face scores between its area and twice its area, strictly above its area when that is positive |
| Cascade.LargerAreaWins | reframe_mediapipe_falante_v7.py:196-202 | a face with more than twice another's area always scores higher |
| Cascade.NearerMidlineWinsAtEqualArea | reframe_mediapipe_falante_v7.py:196-202 | at equal positive area, the face nearer the midline scores higher |
| Cascade.BestFace | reframe_mediapipe_falante_v7.py:204 | `max(haar_faces, key=score_face)`: the first face with the highest score |
| Speaker.MaxFaces | reframe_mediapipe_falante_v7.py:172 | `max_faces` is at least the candidate count and every stored row's length, and is attained by one of them |
| Speaker.PadRow | reframe_mediapipe_falante_v7.py:173 | the padded row has length m, keeps the row's values and is zero after them |
| Speaker.SlotMeans | reframe_mediapipe_falante_v7.py:176-177 | one mean per slot: the slot's column sum over the padded window divided by the window length |
| Speaker.NearestToMidline | reframe_mediapipe_falante_v7.py:169 | the first candidate whose center is horizontally closest to `width // 2` |
| Speaker.RowsFitAfterPush | reframe_mediapipe_falante_v7.py:172-176 | after pushing the padded row, every row of the window fits `max_faces` |
| Speaker.SelectSpeaker | reframe_mediapipe_falante_v7.py:172-181 | the window grows by one up to 15 rows and the chosen index is a current candidate |
| Speaker.SpeakerChoice | reframe_mediapipe_falante_v7.py:172-181 | the window ends with this frame's padded apertures after the surviving older rows; the choice is the first slot with the greatest mean when present, else the first candidate nearest the midline |
| Speaker.SustainedSpeakerWins | reframe_mediapipe_falante_v7.py:176-181 | a present slot with strictly the largest summed aperture over the window is chosen |
| Tracking.Rects | reframe_mediapipe_falante_v7.py:224-228 | one crop rectangle per processed frame |
| Tracking.StepSettles | reframe_mediapipe_falante_v7.py:221-222 | after a frame both deques are within `maxlen` and `centro_antigo` equals `centro_atual` |
| Tracking.StepAnchor | reframe_mediapipe_falante_v7.py:166-170 | `centro_fallback` is kept once set; while None it takes the raw center of the landmark nearest the midline, else of the best Haar face, else stays None |
| Tracking.StepCountsFaces | reframe_mediapipe_falante_v7.py:157 | `faces_detected_sum` grows by the landmark count, or else by the Haar face count |
| Tracking.AnchorOnlyFrame | reframe_mediapipe_falante_v7.py:215-217 | with nothing detected and an anchor stored, the anchor is the target of the exponential step and neither deque nor the count changes |
| Tracking.HoldWithoutAnchor | reframe_mediapipe_falante_v7.py:218-222 | with nothing detected and no anchor, a settled state does not move |
| Tracking.InitialInFrame | reframe_mediapipe_falante_v7.py:135-138 | the initial state lies inside the frame |
| Tracking.FollowInFrame | reframe_mediapipe_falante_v7.py:185-188 | dead zone and smoothing of an in-frame detection keep the center and the history inside the frame |
| Tracking.HaarCenterInFrame | reframe_mediapipe_falante_v7.py:204-205 | the best Haar face's center lies inside the frame when its boxes do |
| Tracking.StepStaysInFrame | reframe_mediapipe_falante_v7.py:155-222 | with in-frame detections, the centers, the anchor and the history stay inside the frame after a frame |
| Tracking.StillFaceStaysStill | reframe_mediapipe_falante_v7.py:183-188 | if every landmark sits on the current center and the history holds only that point, the frame ends where it started |
| Tracking.RunKeepsAnchor | reframe_mediapipe_falante_v7.py:207-209 | a run starting with an anchor ends with the same anchor |
| Tracking.RunStep | reframe_mediapipe_falante_v7.py:148-224 | stepping the state after frame i on frame i gives the state after frame i + 1, and its crop extends the crops written so far by exactly that frame's rectangle |
| Tracking.RunAppend | reframe_mediapipe_falante_v7.py:148-222 | running two stretches of frames one after the other is running their concatenation |
| Tracking.RunAppendKeepsAnchor | reframe_mediapipe_falante_v7.py:166-170 | frames processed after the anchor is set leave it unchanged |
| Tracking.RunAnchorWriteOnce | reframe_mediapipe_falante_v7.py:166-170 | once the anchor is set after some frame, it is the same after every later frame |
| Tracking.RunWithoutDetectionHasNoAnchor | reframe_mediapipe_falante_v7.py:215-218 | a run whose frames detect nothing leaves an empty anchor empty |
| Tracking.RunAnchorFromFirstDetection | reframe_mediapipe_falante_v7.py:166-170 | the anchor is still empty before the first frame with a detection, and from then on it is the raw center that frame offered |
| Tracking.RunInvariant | reframe_mediapipe_falante_v7.py:134-222 | every state of a run is settled whatever the detector returns (both deques within `maxlen`, previous equal to current), and it is inside the frame when every detection is |
| Tracking.StillCenteredFace | reframe_mediapipe_falante_v7.py:148-226 | a face held at the frame center keeps the camera still and every crop is the centered one |
| Reframer.WeightedMean | reframe_mediapipe_falante_v7.py:48-57 | the accumulation loop computes the rank-weighted average of the history |
| Reframer.Tracker.constructor | reframe_mediapipe_falante_v7.py:134-140 | the tracker starts with both centers at the frame center, no anchor, empty deques, zero faces |
| Reframer.Tracker.SmoothCenter | reframe_mediapipe_falante_v7.py:36-58 | the history is the old one with the center pushed (at most 5), and the result is its weighted average; a single entry returns itself |
| Reframer.Tracker.FollowCenter | reframe_mediapipe_falante_v7.py:185-188 | the new state is the dead zone and smoothing step `Tracking.Follow` of the old one |
| Reframer.Tracker.TrackLandmarks | reframe_mediapipe_falante_v7.py:155-188 | the new state is the landmark branch of the step: count, anchor, speaker choice, follow |
| Reframer.Tracker.TrackFaces | reframe_mediapipe_falante_v7.py:194-214 | the new state is the Haar branch of the step: count, best face, anchor, follow |
| Reframer.Tracker.Step | reframe_mediapipe_falante_v7.py:152-226 | the new state is `Tracking.Step` of the old one and the returned rectangle is its crop |
| Reframer.FramesRead | reframe_mediapipe_falante_v7.py:148-150 | the loop processes no frame for a non-positive total, and otherwise exactly min(total, available) frames: it stops at the first failed read |
| Reframer.ReportProgressRange | reframe_mediapipe_falante_v7.py:144 | every reported fraction lies in [0, 0.999] |
| Reframer.ReportProgressMonotone | reframe_mediapipe_falante_v7.py:144 | a later frame never reports a smaller fraction |
| Reframer.ReframingReportsShape | reframe_mediapipe_falante_v7.py:230 | one "reframing" event per block of 50 frames, the k-th for frame 50k |
| Reframer.ReframingProgressMonotone | reframe_mediapipe_falante_v7.py:142-146 | the reported fractions are bounded by 0.999 and non-decreasing along the events |
| Reframer.ReframeFrames | reframe_mediapipe_falante_v7.py:148-230 | the frame loop stops after min(total, available) frames; the crops it writes are those of the run over exactly those frames, its progress events are the reframing reports for that count, and its face count is the run's |
| Reframer.ReframeVideo | reframe_mediapipe_falante_v7.py:99-248 | the crops are those of the run over the frames read; events are the reframing reports then "muxing" 0.0 and, when the mux succeeds, 1.0; the metrics report `total`, the fps or 24.0, and the run's face count, or there are none when the mux fails |
| Jobs.Clamp01 | app.py:46 | `max(0, min(1, x))` is 0 below 0, 1 above 1 and x in between |
| Jobs.ProgressFor | app.py:39-46 | a percentage exactly when the stage is hashable (a list or dict stage makes `STAGE_WEIGHTS.get` raise) and `stage_progress` is numeric (otherwise the comparison raises); then the weighted percentage of the stage |
| Jobs.DoneBeforeBounds | app.py:42-45 | with non-negative weights, done-before plus the stage's weight is within the table total |
| Jobs.DoneBeforeNext | app.py:43-45 | in a table with distinct names, done-before stage k+1 is done-before stage k plus its weight |
| Jobs.DoneBeforeMissing | app.py:43-46 | a stage absent from the table accumulates every weight and has no weight of its own |
| Jobs.StageTable | app.py:31-37 | the weights are non-negative, sum to 1, and the stage names are distinct |
| Jobs.FractionInRange | app.py:46 | for any table of non-negative weights summing to 1, done-before plus the clamped partial lies in [0, 1] |
| Jobs.ProgressInRange | app.py:46 | the percentage lies in [0, 100] for every stage and progress |
| Jobs.QueuedIsZero | app.py:32 | stage "queued" yields 0 whatever its progress |
| Jobs.UnknownStageIsComplete | app.py:43-46 | a stage missing from the table, such as "done" or "error", yields 100 |
| Jobs.ProgressMonotone | app.py:46 | within a stage, more progress never lowers the percentage |
| Jobs.StageBoundariesContinuous | app.py:31-46 | a stage at progress 1 gives the same percentage as the next stage at progress 0 |
| Jobs.Select | app.py:264-267 | the selection is never longer than the table; `SelectKeeps` and `SelectComplete` pin its contents |
| Jobs.SelectKeeps | app.py:264-267 | every selected job passes the status filter and comes from the table |
| Jobs.SelectComplete | app.py:264-267 | every job passing the filter is selected, as often as it occurs in the table, and no other job is |
| Jobs.FilterJobs | app.py:263-279 | the filter loop returns the jobs passing the filter, in table order |
| Jobs.InsertPermutes | app.py:282 | insertion adds the job and nothing else |
| Jobs.SortPermutes | app.py:282 | the sort is a permutation of its input |
| Jobs.InsertSorted | app.py:282 | insertion into a newest-first list keeps it newest first |
| Jobs.SortSorted | app.py:282 | the sort orders the jobs by `created_at`, newest first |
| Jobs.SortStable | app.py:282 | the sort is stable: jobs created at the same time keep their table order |
| Jobs.SliceTo | app.py:285 | `[:limit]` is a prefix, of length min(limit, n) for a non-negative limit and n + limit (at least 0) for a negative one |
| Jobs.ListingProperties | app.py:259-285 | every listed job passes the filter and comes from the table, the list is newest first, and with a non-negative limit its length is min(limit, number of matching jobs) |
| Jobs.ListingComplete | app.py:259-285 | when the limit does not cut the listing, every matching job of the table is listed, as often as it occurs there |
| Jobs.ListingHonoursFilter | app.py:264-267 | with a non-empty status filter, every listed job has exactly that status |
| Jobs.JobTable.constructor | app.py:23 | the table starts empty |
| Jobs.JobTable.Put | app.py:233-243 | storing a job under an id replaces it; a new id goes to the end of the iteration order |
| Jobs.JobTable.Set | app.py:57-60 | a missing id changes nothing and reports it; otherwise the fields are merged and "progress" is the merged job's percentage, or, when that raises (a list or dictionary stage, or a non-numeric `stage_progress`), the merge stands alone and a type error is reported |
| Jobs.JobTable.ListJobs | app.py:259-285 | the listing is the filtered jobs in table order, sorted newest first, cut by `[:limit]` |
| Jobs.MergeOverwrites | app.py:57-60 | the merge overwrites exactly the given fields, keeps every other one, and "progress" holds the recomputed value |
| Spaces.SplitExt | storage/spaces.py:50 | root and extension concatenate back to the path |
| Spaces.SplitExtOf | storage/spaces.py:50 | a final dot followed by neither dots nor '/', after a root whose last component is not all dots, is split off as the extension ("video.mov" gives ".mov") |
| Spaces.SplitExtShape | storage/spaces.py:50 | the extension is empty or starts at the last dot, lies after the last '/', has no further dot, and leaves a root whose last component is not all dots |
| Spaces.RStrip | storage/spaces.py:56 | `rstrip('/')` is a prefix that ends in no '/', and only '/' were dropped |
| Spaces.Strip | storage/spaces.py:52 | `strip('/')` neither starts nor ends with '/' |
| Spaces.StripShape | storage/spaces.py:52 | the stripped string is the slice between the leading and trailing runs of '/' |
| Spaces.StripIdempotent | storage/spaces.py:52 | stripping twice is stripping once |
| Spaces.MakeKeyShape | storage/spaces.py:49-52 | the key is, position by position, the stripped prefix (no leading or trailing '/'), '/', the date, '/', the hex id and a non-empty extension: the filename's own or ".mp4" |
| Spaces.NoDotMeansMp4 | storage/spaces.py:50 | a filename without a dot gets ".mp4" |
| Spaces.CdnUrlShape | storage/spaces.py:55-56 | under a CDN base the URL is the base with its trailing '/' dropped, then one '/', then the key |
| Spaces.DefaultBucketUrl | storage/spaces.py:8-10 | with no environment settings the URL is under bucket "cod5" in region "nyc3" |
| Spaces.DefaultUrlShape | storage/spaces.py:57-58 | without a CDN base (absent or empty) the URL is `https://<bucket>.<region>.digitaloceanspaces.com/<key>` |

## Left out

- OpenCV and MediaPipe: the model takes each frame's detector outputs as given. These are the landmark candidates and the frontal and profile cascade boxes. Capture, colour conversion, face mesh and `detectMultiScale` are library calls.
- The landmark centroid and mouth-aperture computation (reframe_mediapipe_falante_v7.py:159-163): each candidate arrives as a given center and aperture, because it is a Euclidean norm over library landmarks.
- Pixel slicing and writing of the crop (reframe_mediapipe_falante_v7.py:227-228): only the rectangle is modelled.
- The ffmpeg audio mux (reframe_mediapipe_falante_v7.py:87-97): its outcome is the parameter `muxSucceeds`; a failure raises, so there are no metrics.
- The removal of the temporary video file: filesystem I/O.
- The progress callback: modelled by the list of events it would receive. Whether a callback is given at all is not modelled; with none, the events are simply not delivered.
- The background worker, its thread, the lock and the queue (app.py:124-208): concurrency and orchestration.
- `_download_to_tmp` (app.py:64-122): HTTP download and filesystem checks.
- Job snapshots on disk (`_save_job`) and the callback POST: I/O.
- The Flask routes beyond the `list_jobs` kernel, including the parse of the `limit` query string, which is a given integer here.
- The ETA of `list_jobs` and of the job views: wall-clock time and float division.
- Jobs.ProgressFor: the final `round(..., 1)` is not applied; the percentage is the exact value before rounding.
- Jobs.JobTable.Set: stores that unrounded percentage under "progress".
- Jobs.JobTable.ListJobs: a `created_at` that is not a number is read as 0. Python's sort would raise `TypeError` on a string or `None` and read `True` as 1. The server always stores an integer creation time (app.py:233-243).
- Field values other than null, booleans, numbers and strings (lists and dictionaries) are one opaque kind, `Other`: unhashable and not comparable with a number.
- `upload_public` and the boto3/SSL client setup (storage/spaces.py:17-47, 60-71): network I/O.
- The clock and the random id of `make_key`: the formatted date and the UUID hex digits are parameters. The environment reads of the bucket, region and CDN base are parameters too.
- config.py and utils/response.py: environment reads, constants and JSON wrappers, with no logic of the core.
- Reframer.ReframeVideo, Reframer.ReframeFrames: require a positive frame width whenever frames are decoded. The Haar score divides by the width, and a decoded frame has one.
