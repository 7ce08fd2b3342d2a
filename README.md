# soccer-broadcast, modelled in Dafny

soccer-broadcast turns two fixed cameras filming one pitch into a broadcast video. It runs in
three stages:

- **Stitch.** `calibrate.py` estimates a homography and a canvas from one frame pair.
  `sync_audio.py` or the timecode tags give the offset between the cameras. `stitch.py`
  warps, places and cross-fades every frame pair into one panorama.
- **Interactive.** `interactive.py` lets an operator steer a crop window over the panorama
  with the keyboard, drive a scoreboard, and log one CSV row per frame.
- **Render.** `render.py` replays that log over the panorama. It crops, scales and
  letterboxes each frame and composites the scoreboard overlay drawn by `scoreboard.py`.

Three Streamlit pages wrap the stages and show summaries of the log.

This project models the deterministic logic around the OpenCV, ffmpeg, Pillow and pygame
calls: parsing, validation, integer geometry, the loops' bookkeeping and the state machines.
Each foreign call is replaced by its output, passed in as a parameter:

- the warped corners, the homography and its inlier mask;
- the k-nearest-neighbour matches and keypoints;
- the warped right frame;
- the frame streams, as finite sequences;
- the cross-correlation sequence;
- text widths and the painted scoreboard;
- the per-frame pygame events and held keys.

One Dafny module per source file:

| module | file | form |
|---|---|---|
| `Stitch` | stitch.dfy | functions for parsing and validation; methods with loops for `stitch_videos` |
| `StitchFrame` | stitch_frame.dfy | methods over `array2` canvases for `stitch_frame` |
| `Calibrate` | calibrate.dfy | functions, plus loop methods for the ratio test and the candidate loop |
| `SyncAudio` | sync_audio.dfy | functions |
| `Interactive` | interactive.dfy | classes `CropState` and `InteractiveViewer` whose methods update their fields |
| `Render` | render.dfy | a method with the frame loop, and functions for each row |
| `Scoreboard` | scoreboard.dfy | colour and layout functions; class `Renderer` with its cache; compositing over `array2` frames |
| `StitchPage`, `InteractivePage`, `RenderPage` | stitch_page.dfy, interactive_page.dfy, render_page.dfy | the three pages' helpers |

The following modules are shared:

- `Duration`: `format_duration`, which all three pages define identically.
- `SessionLog`: the CSV rows the pages and the renderer read back.
- `Text`: Python's `int()`, `float()`, `strip`, `split`, `replace` and `str()` on integers.
- `Arith`: truncation, floor, ceiling and banker's rounding, plus Python's slice-index rules.
- `Image`: 8-bit BGR pixels.
- `Json`: the values `json.load` produces.
- `Wrappers`: `Option`, `Result` and the exception kinds.

Python `int()` on a float truncates toward zero (`Arith.Trunc`). `//` and `%` on floats
floor (`Duration.FloorMod`). Numbers are exact reals: float rounding is not modelled.

## Model

| member | source | states |
|---|---|---|
| Stitch.TimecodeFields | stitch.py:62 | splitting after `;` is replaced by `:` yields at least one field, and no field contains either separator |
| Stitch.SecondsOfFields | stitch.py:63-70 | a field that does not parse is a ValueError; the result is None exactly when there are neither 3 nor 4 fields |
| Stitch.TimecodeToSeconds | stitch.py:60-70 | the same for a whole timecode string: None exactly for a field count other than 3 or 4, and every error is a ValueError |
| Stitch.TimecodeReadsBack | stitch.py:60-66 | a padded `HH:MM:SS:FF` or drop-frame `HH:MM:SS;FF` tag parses to h·3600 + m·60 + s + f/30 |
| Stitch.TimecodeTextFields | stitch.py:62 | either tag form splits back into its four padded fields |
| Stitch.TimecodeNormalised | stitch.py:62 | replacing `;` by `:` turns the drop-frame form into the non-drop form |
| Stitch.Difference | stitch.py:78-84 | the offset has a value exactly when both tags have one, and it is right minus left; the left tag's error takes precedence |
| Stitch.DetectTimecodeOffset | stitch.py:72-84 | None when either tag is missing; otherwise the difference of the parsed tags |
| Stitch.OffsetOfParsed | stitch.py:72-84 | two tags that parse to a and b give the offset b − a |
| Stitch.OffsetAntisymmetric | stitch.py:84 | swapping the cameras negates the offset |
| Stitch.ElementToFloat | stitch.py:229 | numpy's conversion of one JSON value: a dict is a TypeError and every other failure a ValueError; integers and floats keep their values; text spelling "nan", "inf" or "infinity" is not finite; other text that converts is what `float()` reads |
| Stitch.NanText | stitch.py:229-233 | worked example: "nan" reads as NaN, so it reaches the NaN/Inf check |
| Stitch.NegativeInfinityText | stitch.py:229-233 | worked example: " -Infinity " (padded, signed, mixed case) reads as negative infinity, so it reaches the NaN/Inf check |
| Stitch.ToFloats | stitch.py:229 | the conversion succeeds exactly when every element converts, preserving order and values; otherwise the first failing element decides the error |
| Stitch.Shape | stitch.py:229 | the shape numpy discovers: a list's length first, a scalar's shape empty |
| Stitch.ThreeByThreeShape | stitch.py:229-231 | a 3×3 list of scalars has shape (3, 3) and converts its nine entries in row-major order |
| Stitch.HomographyMatrix | stitch.py:229-233 | anything but a 3×3 list of scalars is rejected: by the first value of the discovered shape that does not convert (TypeError for a dict, ValueError otherwise), else by the shape check's ValueError; a NaN or infinite entry is a ValueError; a success holds each entry's finite value |
| Stitch.DictInListHomography | stitch.py:229 | `[{}]` is a TypeError |
| Stitch.DictRowsHomography | stitch.py:229 | `[[{}], [{}], [{}]]` is a TypeError, not a shape error |
| Stitch.RaggedHomography | stitch.py:229-231 | the ragged `[[1, 2], [3]]` is a ValueError |
| Stitch.NonPositive | stitch.py:237 | `value <= 0` on an integer is the comparison; on None, text or a container it is a TypeError |
| Stitch.RequiredPresent | stitch.py:223-225 | no required key is missing exactly when all seven are present |
| Stitch.ValidateCalibration | stitch.py:223-227 | a missing required key is a ValueError; otherwise the field checks decide |
| Stitch.CheckFields | stitch.py:229-243 | a homography error is returned as is; a success carries the loaded homography and positive canvas sides, with every geometry field equal to the record's integer |
| Stitch.RejectsNonPositiveCanvas | stitch.py:235-238 | a zero or negative canvas width is a ValueError; so is a zero or negative height when the width is positive |
| Stitch.RejectsNonFiniteHomography | stitch.py:232-233 | a null or non-finite entry in a well-shaped homography is a ValueError |
| Stitch.SavedFields | calibrate.py:186-199 | the record `save_calibration` builds holds every required key, each with the value it was built from |
| Stitch.MatrixJsonReadsBack | stitch.py:229-233 | `H.tolist()` of a finite 3×3 matrix loads back as the same matrix |
| Stitch.SavedCalibrationValidates | stitch.py:222-243 | a saved calibration with a 3×3 homography and a positive canvas passes validation and yields back its homography and geometry |
| Stitch.CalibrationData | stitch.py:207-220 | a loaded record is used as is; otherwise `calibrate` runs on frame 0 with overlap 0.35, and its error propagates or its record is used |
| Stitch.FreshCalibrationValidates | stitch.py:207-243 | a fresh calibration of non-empty frames with a 3×3 homography always passes validation |
| Stitch.SkipFrames | stitch.py:257-264 | n reads on a capture holding len frames consume min(max(0, n), len) frames |
| Stitch.AlignedPairsKeepOffset | stitch.py:256-264 | every stitched pair joins left frame j with right frame j + frame_offset |
| Stitch.ExpectedCountExact | stitch.py:266-269 | with true frame counts, exactly max(0, total_frames) pairs are stitched |
| Stitch.FirstMisfit | stitch.py:141-158 | the number of pairs before the first whose left frame stitch_frame cannot place: every earlier left frame fits, and the pair at that index does not |
| Stitch.FirstMisfitIs | stitch.py:141-158 | that index is the only one before which every left frame fits and at which one does not (k = \|pairs\| when all fit) |
| Stitch.UniformFrames | stitch.py:141-158 | with left frames of one size, either every pair is stitched or the first already fails |
| Stitch.OffsetPastFrameFails | stitch.py:141-158 | a 100×100 left frame with offset_x = 200 on a 1000×100 canvas cannot be placed |
| Stitch.PairLoop | stitch.py:283-306 | the loop writes the aligned pairs in order; it stops at the first failed read, and at the first left frame stitch_frame cannot place, with ValueError; after the n-th write the callback gets (n, total_frames) |
| Stitch.ProgressEndsAtTotal | stitch.py:305-306 | with true frame counts and a non-empty overlap, the last callback is (total_frames, total_frames) |
| Stitch.StitchOpened | stitch.py:256-313 | with both streams open, a writer that fails to open is a RuntimeError and writes nothing; otherwise the aligned pairs are written with their callbacks up to the first that cannot be placed, which is a ValueError |
| Stitch.StitchVideos | stitch.py:188-316 | errors in order: the calibration's own, validation, FileNotFoundError for a stream, RuntimeError for the writer, and none of these writes anything; then the aligned pairs are written up to the first whose left frame cannot be placed, which ends the run with ValueError; otherwise the run succeeds with the validated parameters |
| StitchFrame.PlacementOf | stitch.py:141-156 | the clipped left-frame rectangle lies inside the canvas and inside the left frame |
| StitchFrame.PlacementInside | stitch.py:141-158 | as above; also, where the frame overlaps the canvas, the source and destination extents are equal and shifted by the offset |
| StitchFrame.WholeFramePlaced | stitch.py:141-158 | a left frame lying wholly inside the canvas is copied whole at (−offset_y, −offset_x) |
| StitchFrame.CalibratedPlacement | calibrate.py:161-176 | the geometry `compute_canvas_and_blend` returns always places the whole left frame |
| StitchFrame.Alpha | stitch.py:163-164 | alpha = i / max(w − 1, 1) lies in [0, 1]; it is 0 at the first band column and 1 at the last |
| StitchFrame.OutputPixel | stitch.py:161-183 | an output pixel is black exactly when neither the placed left pixel nor the warped right pixel has content; one side without content gives the other; outside the band the left pixel is kept |
| StitchFrame.BandEnds | stitch.py:170-177 | inside the band with content on both sides, the pixel is the alpha mix; the first band column keeps the left pixel and the last takes the right pixel |
| StitchFrame.Compose | stitch.py:109-184 | a canvas of canvas_height × canvas_width; a failure exactly when numpy rejects the slice assignment; otherwise every pixel is the placed, blended and filled pixel |
| StitchFrame.PlaceLeft | stitch.py:141-158 | copies the clipped left rectangle onto the black canvas and leaves the rest black |
| StitchFrame.BlendBand | stitch.py:161-179 | every pixel becomes its band-blended value; columns outside the band or the canvas are untouched |
| StitchFrame.BlendColumn | stitch.py:165-179 | one band column is blended where both sides have content and takes the right pixel where only the right has content; all other columns are unchanged |
| StitchFrame.FillRightOnly | stitch.py:181-183 | a pixel that is still black takes the warped right pixel when that has content |
| Image.MixChannel | stitch.py:176-179 | (1 − α)·l + α·r, truncated to uint8, lies between l and r, and equals l at α = 0 and r at α = 1 |
| Calibrate.Extension | calibrate.py:25 | `os.path.splitext(path)[1]` is empty or a suffix of the path that starts with '.' |
| Calibrate.ExtensionShape | calibrate.py:25 | a non-empty extension contains no further '.' and no '/' |
| Calibrate.ExtensionOfName | calibrate.py:25 | the extension of "stem.word" is ".word" |
| Calibrate.SourceOf | calibrate.py:25-39 | an image exactly when the lower-cased extension is one of the six image extensions; a video seeks exactly when frame_index > 0, to that frame |
| Calibrate.ExtractFrame | calibrate.py:23-47 | an unreadable image, or a video that cannot be opened, gives FileNotFoundError; a video returns the frame at the index, or RuntimeError past the end |
| Calibrate.RatioTest | calibrate.py:93-97 | the ratio-test loop computes RatioFilter |
| Calibrate.RatioFilterSpec | calibrate.py:93-97 | succeeds exactly when every knn entry has two matches (otherwise ValueError); keeps exactly the best matches closer than 0.75 × the second, and never more matches than there are entries |
| Calibrate.DetectAndMatch | calibrate.py:50-117 | missing descriptors give RuntimeError; fewer than min_matches good matches give RuntimeError; otherwise one point pair per good match, the left x shifted by int(w_left·(1 − overlap)) |
| Calibrate.GoodIndicesValid | calibrate.py:106-115 | every kept match indexes existing keypoints on both sides |
| Calibrate.ExtremaBound | calibrate.py:161-171 | the minimum and maximum bound every corner, and each is attained |
| Calibrate.CornerBounds | calibrate.py:155-164 | the bounding box contains the origin, the left frame's far corner and every warped corner |
| Calibrate.ComputeCanvasAndBlend | calibrate.py:135-176 | offsets ≤ 0; the canvas covers the left frame and every warped corner; 0 ≤ blend_x_start and blend_x_end ≤ canvas_width, as the two formulas give them |
| Calibrate.Attempt | calibrate.py:308-335 | a successful candidate records its frame index, inlier count and ratio inliers / max(matches, 1), at least the minimum matches, the homography and a canvas covering the left frame; a failed homography is an error |
| Calibrate.CalibrateOnce | calibrate.py:208-261 | `calibrate` fails exactly when the same steps fail for a candidate; its record has no frame index or inlier ratio |
| Calibrate.TakePercentages | calibrate.py:301-303 | `percentages[:n]`, with Python's rules for a negative n |
| Calibrate.CandidateIndices | calibrate.py:300-303 | one index min(int(total·p), total − 1) per percentage taken |
| Calibrate.CandidateIndicesInRange | calibrate.py:302-303 | with total ≥ 2, every candidate lies in [0, total − 1], in ascending order |
| Calibrate.InsertByInliers | calibrate.py:344 | one record inserted into a ranking gives a permutation of the ranking plus that record |
| Calibrate.InsertKeepsOrder | calibrate.py:344 | inserting into a ranking ordered by descending inliers keeps it ordered |
| Calibrate.InsertStable | calibrate.py:344 | inserting keeps the relative order of the records with each inlier count, the new record first |
| Calibrate.SortDescending | calibrate.py:344 | the ranking orders records by inlier count, descending |
| Calibrate.SortByInliers | calibrate.py:344 | the ranking is a permutation of the records |
| Calibrate.SortStable | calibrate.py:344 | the ranking is stable: records with equal inlier counts keep their order |
| Calibrate.BestHasMostInliers | calibrate.py:344-347 | the persisted record has at least as many inliers as every other record |
| Calibrate.CollectCandidates | calibrate.py:305-338 | the candidate loop computes Collect: a RuntimeError skips the candidate, and any other error propagates |
| Calibrate.CollectedRecords | calibrate.py:305-338 | at most one record per candidate, each with its frame index and inlier ratio; a propagated error is never a RuntimeError |
| Calibrate.CalibrateMulti | calibrate.py:264-353 | an unopenable left video gives FileNotFoundError; total ≤ 1 gives the single calibration at frame 0, which calibrate() persists; no surviving candidate gives RuntimeError; otherwise the ranked records, with the first persisted; nothing is persisted on an error |
| SyncAudio.WindowLength | sync_audio.py:91 | the window is min(60·rate, len(left), len(right)) |
| SyncAudio.FirstArgMax | sync_audio.py:110 | np.argmax: an index of the largest element, with every earlier element strictly smaller |
| SyncAudio.LagSamples | sync_audio.py:103-114 | an empty search window is the ValueError np.argmax raises, and only then |
| SyncAudio.LagWithinMaxOffset | sync_audio.py:106-114 | a lag exists only for M ≥ 0 and has magnitude at most M = int(max_offset·rate) |
| SyncAudio.NegativeBoundEmpty | sync_audio.py:106-107 | a negative M leaves the search window empty |
| SyncAudio.LagIsFirstPeak | sync_audio.py:106-114 | centre + lag is the first in-window maximum, so ties resolve to the most negative lag |
| SyncAudio.UniquePeakIsLag | sync_audio.py:103-114 | a unique in-window maximum at centre + k gives the lag k |
| SyncAudio.CrossCorrelateOffset | sync_audio.py:71-116 | the offset is the lag divided by the sample rate, and lag errors propagate |
| SyncAudio.UniquePeakGivesOffset | sync_audio.py:71-116 | a unique in-window maximum at centre + k gives k / rate seconds |
| SyncAudio.WavSourceOf | sync_audio.py:134-151 | a file whose extension is ".wav" in any case is read directly; anything else is extracted into the temporary directory |
| SyncAudio.Sync | sync_audio.py:119-168 | an extraction failure on either side is a RuntimeError; a load error of either file propagates, the left one first; differing sample rates are a RuntimeError; a zero rate is a ZeroDivisionError; otherwise the correlation offset is returned |
| Interactive.CropSizeScales | interactive.py:50-60 | a crop side of int(output / zoom) satisfies size·zoom ≤ output < (size + 1)·zoom |
| Interactive.CropShrinksAsZoomGrows | interactive.py:50-60 | a higher zoom never gives a larger crop |
| Interactive.DefaultCropSizes | interactive.py:50-60 | worked example of CropSizeScales: 1920×1080 at zoom 1.0, 1600×900 at zoom 1.2, the whole panorama at zoom 0 |
| Interactive.CropOrigin | interactive.py:62-72 | the origin is never negative; the crop stays inside the panorama whenever it is not larger than it; an unclamped origin is the truncated centre minus half the size |
| Interactive.MoveKeepsCentreInRange | interactive.py:74-85 | a move keeps the crop size and clips the centre into [size/2, pano − size/2]; an axis with zero delta that is already in range is unchanged |
| Interactive.MovedCropNeedsNoClamp | interactive.py:62-85 | after a move the crop origin needs no clamping |
| Interactive.NextZoom | interactive.py:87-94 | zoom stays in [0, 1.2]; from 0 a positive delta jumps to 0.5; a negative delta ends at 0 or at least 0.1; the zoom moves in the delta's direction |
| Interactive.CropState.constructor | interactive.py:34-47 | a new crop has zoom 1.0 and is centred on the panorama |
| Interactive.CropState.Move | interactive.py:74-85 | the new view is the clipped move of the old view |
| Interactive.CropState.AdjustZoom | interactive.py:87-94 | the new view is the old view with the next zoom |
| Interactive.ScoresStayNonNegative | interactive.py:214-221 | no key sequence makes a score negative |
| Interactive.HalfStaysOneOrTwo | interactive.py:224-227 | the half stays 1 or 2 once it is 1 or 2, or once h has been pressed |
| Interactive.KeysUndo | interactive.py:212-229 | q then a, p then l, space twice and t twice restore the board; h twice restores it with the clock zeroed and stopped |
| Interactive.Tick | interactive.py:383-384 | the clock advances by 1/fps per frame while it runs, and nothing else changes |
| Interactive.FrameRow | interactive.py:312-327 | the log row of a frame carries current_frame and the timestamp current_frame / fps |
| Interactive.SessionFrameCount | interactive.py:372-398 | after n frames the frame counter has advanced by n |
| Interactive.RowsNumberFrames | interactive.py:372-398 | one log row per frame read, numbered consecutively from the starting frame, each stamped frame / fps |
| Interactive.HeadlessSession | interactive.py:372-398 | without a display the crop and scoreboard never change, except that the clock advances by frames / fps while it runs |
| Interactive.HeadlessFrames | interactive.py:372-401 | the frame count of a headless run never exceeds the frames available |
| Interactive.HeadlessRunLength | interactive.py:372-401 | a headless run stops at the end of the source or when current_frame reaches a non-zero max_frames, whichever comes first |
| Interactive.EffectiveFps | interactive.py:155 | a zero fps reads as 30.0; any other value is kept |
| Interactive.MoveWhenHeld | interactive.py:188-195 | a held arrow key moves the crop; otherwise the crop is unchanged |
| Interactive.ZoomWhenHeld | interactive.py:198-201 | a held zoom key steps the zoom; otherwise the crop is unchanged |
| Interactive.ApplyPan | interactive.py:188-191 | left, then right |
| Interactive.ApplyArrows | interactive.py:188-195 | left, right, up, then down |
| Interactive.ApplyKeys | interactive.py:185-201 | the arrow moves, then zoom in, then zoom out |
| Interactive.InteractiveViewer.constructor | interactive.py:100-145 | the initial scoreboard, counters and log, with speeds from the config or the defaults 15, 10 and 0.02 |
| Interactive.InteractiveViewer.HandleEvent | interactive.py:203-229 | one event changes the board as the key table says and nothing else |
| Interactive.InteractiveViewer.HandleEvents | interactive.py:203-229 | a queue of events is applied in order and changes nothing but the board |
| Interactive.InteractiveViewer.HandleKeyboard | interactive.py:185-201 | the crop is updated by the held keys with the viewer's speeds |
| Interactive.InteractiveViewer.LogFrame | interactive.py:312-327 | appends exactly one row for the current frame, scoreboard and crop, and changes nothing else |
| Interactive.InteractiveViewer.OpenVideo | interactive.py:147-158 | reads the panorama size, fps (0 read as 30) and frame count, and creates a fresh crop |
| Interactive.InteractiveViewer.Step | interactive.py:376-398 | one frame: clock tick, events and keys when not headless, one log row, counter + 1 |
| Interactive.InteractiveViewer.StepFrame | interactive.py:372-401 | one more frame keeps the loop invariant: the session and the log are those after n + 1 frames |
| Interactive.InteractiveViewer.Loop | interactive.py:372-401 | the loop runs n frames, at least one when the source has any; it stops at the end of the source or when running is cleared or max_frames is reached; the log holds one row per frame |
| Interactive.InteractiveViewer.Run | interactive.py:354-410 | an unopenable video gives FileNotFoundError; a display without pygame gives RuntimeError; otherwise the loop runs from a running board and a fresh crop |
| Render.MissingColumns | render.py:32-33 | a column is reported missing exactly when it is required and absent from the row |
| Render.ReadLog | render.py:23-36 | a missing file gives FileNotFoundError; no rows, or a first row without any crop column, gives ValueError; otherwise the rows are returned |
| Render.IntField | render.py:111-114 | `int(row[key])`: a KeyError for an absent column, a TypeError for a short line's None, otherwise the parse |
| Render.ParseCrop | render.py:110-118 | succeeds exactly when all four crop fields parse, and yields them |
| Render.ClampCrop | render.py:120-130 | the crop lies inside the panorama; it is either the full-frame fallback, or a usable crop no larger than the one asked for |
| Render.ClampKeepsUsable | render.py:120-130 | a crop already inside the panorama is left as is |
| Render.ClampIdempotent | render.py:120-130 | clamping twice is clamping once |
| Render.LetterboxOf | render.py:136-145 | y_offset = (output_height − scaled_h) // 2; a zero crop width is a ZeroDivisionError |
| Render.ScaledHeight | render.py:138-139 | int(h · (W / w)) is the integer quotient h·W // w |
| Render.LetterboxFits | render.py:136-145 | a full panorama no taller than the output, once scaled, fits with bars whose heights differ by at most one row |
| Render.IntOr | render.py:156-159 | an absent column gives the default; a short line's None fails |
| Render.ScoreboardOf | render.py:152-163 | visibility is scoreboard_visible == "true"; the team names and colours come from the settings, at the bottom with offset 50 |
| Render.ScoreboardDefaults | render.py:152-160 | absent score, clock and half columns default to 0, 0, 0 and 1; an absent visibility column means visible |
| Render.OverlayOf | render.py:150-168 | a scoreboard whose colours do not parse is dropped and the frame is written without it |
| Render.RowOutcomeOf | render.py:109-168 | a row is skipped exactly when its crop does not parse (ValueError or KeyError); a written frame uses the clamped crop, which is usable, and is letterboxed exactly when it shows the full panorama |
| Render.ProcessRow | render.py:109-168 | the per-row body computes the row's outcome |
| Render.ClampInPlace | render.py:120-130 | the step-by-step reassignments compute the clamp |
| Render.Accumulate | render.py:100-178 | never more written frames than rows; every callback is (row number, total) |
| Render.ProgressCounts | render.py:171-175 | the callbacks follow the writes, numbered by the row that wrote them, in increasing order |
| Render.AllRowsWritten | render.py:171-175 | when every row is written, the callbacks are (1, N) … (N, N) |
| Render.SkippedRowCounts | render.py:115-118 | a skipped row writes nothing but still advances the frame number |
| Render.AccumulateStep | render.py:102-178 | one row more adds its frame and callback, adds nothing, or ends the render with its error |
| Render.ErrorStops | render.py:151-165 | after an uncaught error nothing more is written |
| Render.WrittenFramesUsable | render.py:120-148 | every written frame uses a crop inside the panorama, letterboxed exactly when it is the full panorama |
| Render.WrittenSource | render.py:171-175 | every written frame is the outcome of some row |
| Render.LoggedCropReadsBack | interactive.py:312-327 | a row `log_frame` recorded parses back to the crop it logged |
| Render.LoggedLogReads | render.py:23-36 | a log whose first row `log_frame` recorded passes validation |
| Render.LoggedScoreboardReadsBack | render.py:152-163 | a logged row reads back as the scoreboard state that was logged |
| Render.LoggedRowRenders | render.py:109-168 | a logged row with a usable crop that is not the full panorama is written with that crop, unletterboxed, with its scoreboard |
| Render.RenderBroadcast | render.py:39-184 | errors in order: the log's, FileNotFoundError for the video, RuntimeError for the writer; otherwise one source frame per row until the source ends, writing and calling back as the rows decide |
| Scoreboard.LStripHash | scoreboard.py:33 | `lstrip("#")` removes exactly the leading '#' characters |
| Scoreboard.HexToRgb | scoreboard.py:31-34 | a success needs at least five characters after the '#'; each channel is `int(pair, 16)` |
| Scoreboard.HexRoundTrip | scoreboard.py:31-34 | "#RRGGBB" and "RRGGBB" of a colour both read back as that colour |
| Scoreboard.HomeColourReads | scoreboard.py:31-34 | worked example of HexRoundTrip: "#1E5E3A" and "1E5E3A" both give (30, 94, 58) |
| Scoreboard.DarkenColor | scoreboard.py:37-39 | every channel is max(0, int(c·factor)), so never negative |
| Scoreboard.DarkenChannelBounds | scoreboard.py:39 | a channel darkened by a factor in [0, 1] lies in [0, c], and factor 1 keeps it |
| Scoreboard.DarkenKeepsColour | scoreboard.py:37-39 | a factor in [0, 1] keeps a colour valid and no brighter; factor 1 is the identity; (100, 200, 50) at 0.5 gives (50, 100, 25) |
| Scoreboard.BlendChannelBetween | scoreboard.py:45 | a blended channel lies between base and overlay; α = 0 gives the base and α = 1 the overlay |
| Scoreboard.BlendStaysBetween | scoreboard.py:42-45 | blending with α in [0, 1] stays between the two colours channel by channel, and α = 0 keeps the base |
| Scoreboard.BarLayout | scoreboard.py:126-142 | bar_width = max(600, home + 100 + away); the bar is centred, rounding left; at the top it sits offset pixels down, otherwise offset pixels above the bottom edge |
| Scoreboard.BarInsideFrame | scoreboard.py:134-142 | a bar no wider than the frame, with an offset that leaves room for it, lies inside the frame |
| Scoreboard.ClockTextReadsBack | scoreboard.py:227-229 | the clock text splits into minutes and seconds with 0 ≤ seconds < 60 and minutes·60 + seconds = clock_seconds |
| Scoreboard.ClockTextLength | scoreboard.py:227-229 | below 100 minutes the clock text is "MM:SS" |
| Scoreboard.HalfText | scoreboard.py:240 | "1ST HALF" exactly when half == 1, otherwise "2ND HALF" |
| Scoreboard.Blank | scoreboard.py:107-108 | a frame-sized, fully transparent image |
| Scoreboard.Renderer.constructor | scoreboard.py:51-73 | the frame size, with an empty cache |
| Scoreboard.Renderer.Render | scoreboard.py:100-304 | invisible: a fresh transparent image with the cache untouched; cache hit: the cached image itself; unparsable colours: ValueError with the cache untouched; otherwise a fresh painted image that becomes the cache |
| Scoreboard.Renderer.RenderVisible | scoreboard.py:110-304 | the three visible cases above |
| Scoreboard.Renderer.CompositeOntoFrame | scoreboard.py:315-366 | invisible: the input frame itself, cache untouched; otherwise the overlay (resized when its size differs) composited over the frame; the cache is untouched on a hit or a colour ValueError, and holds the state and a fresh drawing after a miss |
| Scoreboard.CompositePixel | scoreboard.py:357-364 | alpha 0 keeps the frame pixel and alpha 255 takes the overlay's colour |
| Scoreboard.FirstTrue | scoreboard.py:351-353 | `np.argmax` of a boolean mask: the first index holding content, with none before it, or 0 when there is none |
| Scoreboard.LastTrueEnd | scoreboard.py:352-354 | `len(mask) - np.argmax(mask[::-1])`: one past the last index holding content, with none after it |
| Scoreboard.ContentBoxRowsTight | scoreboard.py:345-352 | the box's first and last rows both have non-zero alpha |
| Scoreboard.ContentBoxColsTight | scoreboard.py:346-354 | the box's first and last columns both have non-zero alpha |
| Scoreboard.ContentBoxInside | scoreboard.py:348-354 | an overlay with content has a non-empty box inside the frame |
| Scoreboard.ContentBoxCovers | scoreboard.py:343-354 | every pixel with non-zero alpha lies in the box |
| Scoreboard.CompositeOverlay | scoreboard.py:343-366 | an overlay without content returns the frame itself; otherwise a fresh copy in which only the box is composited, with the same shape |
| Scoreboard.CopyFrame | scoreboard.py:363 | `frame.copy()`: a fresh array with the same shape and pixels |
| Scoreboard.BlendRegion | scoreboard.py:357-364 | every pixel inside the box is composited and every pixel outside it is untouched |
| Scoreboard.BlendRow | scoreboard.py:357-364 | one row of the box is composited and every other pixel is untouched |
| Text.Replace | stitch.py:62 | `str.replace` on one character changes exactly the occurrences of that character |
| Text.ReplaceRemoves | stitch.py:62 | after replacing `;` no `;` remains |
| Text.Split | stitch.py:62 | `str.split` on one character gives at least one part, no part holds the separator, and the parts joined back are the input |
| Text.SplitJoin | stitch.py:62 | splitting parts joined by a separator they do not contain gives back the parts |
| Text.Lower | calibrate.py:25 | lower-cases each ASCII letter in place and keeps every other character |
| Text.IntToStringParses | interactive.py:314-326 | the decimal text of every integer the viewer logs parses back to that integer |
| Text.IntToStringInjective | pages/2_Interactive.py:39 | two integers have the same decimal text exactly when they are equal |
| Arith.SliceIndex | stitch.py:152-158 | where numpy puts a slice bound: negative bounds count from the end and both ends clamp to [0, n] |
| Arith.Trunc | render.py:139 | `int()` of a float truncates toward zero |
| Arith.RoundHalfEven | pages/1_Stitch.py:145 | `round()` gives the nearest integer, an exact half going to the even one |
| Duration.FieldsDecompose | pages/2_Interactive.py:63-65 | h·3600 + m·60 + s = ⌊seconds⌋, with 0 ≤ m < 60 and 0 ≤ s < 60 |
| Duration.FloorMod | pages/2_Interactive.py:64-65 | Python's float `%` by a positive integer lies in [0, n) |
| Duration.HoursPositive | pages/1_Stitch.py:26-29 | for non-negative seconds, h > 0 exactly from one hour on |
| Duration.FormatDurationReadsBack | pages/3_Render.py:64-71 | the text splits at ':' into fields that parse back to h, m and s; from one hour on it is "H:MM:SS", below an hour "M:SS" |
| Duration.FormatWhole | pages/1_Stitch.py:24-31 | a whole number of seconds n shows as n // 3600, (n % 3600) // 60 and n % 60 |
| Duration.ShortExample | pages/2_Interactive.py:61-68 | worked example of FormatDurationReadsBack: 90 seconds show as "1:30" |
| Duration.LongExample | pages/1_Stitch.py:24-31 | worked example of FormatDurationReadsBack: 3661 seconds show as "1:01:01" |
| StitchPage.DisplayDuration | pages/1_Stitch.py:38 | frame_count / fps, or 0 when fps ≤ 0 |
| StitchPage.DisplayedSeconds | pages/1_Stitch.py:38 | the shown fields decompose the whole seconds, and those seconds never exceed the frames shown |
| StitchPage.EstimatedMinutes | pages/1_Stitch.py:119 | the estimate is duration · 0.2 / 60 minutes |
| StitchPage.DetectSync | pages/1_Stitch.py:50-58 | timecode sync exactly when a timecode offset exists, carrying that offset |
| StitchPage.FrameOffset | pages/1_Stitch.py:143-150 | the frame offset is within half a frame of offset · fps |
| StitchPage.FrameOffsetWhole | pages/1_Stitch.py:143-150 | a whole number of frames is kept exactly |
| StitchPage.TimecodePreferred | pages/1_Stitch.py:143-150 | a timecode offset is used whatever the audio offset, and gives what the same audio offset would |
| StitchPage.FrameOffsetSign | pages/1_Stitch.py:143-150 | a non-negative offset gives a non-negative frame offset |
| SessionLog.Get | pages/2_Interactive.py:53-56 | `row.get(key, default)` |
| SessionLog.LogDuration | pages/2_Interactive.py:44-48 | the last timestamp when it parses; frames / 30 when it is None or not a number; 0.0 when the column is absent |
| SessionLog.LoggedScoreCells | interactive.py:312-327 | a logged row holds each score column and the half as decimal text |
| SessionLog.LoggedClockCells | interactive.py:322-326 | a logged row holds the clock as decimal text and the running and visible flags as "true" or "false" |
| SessionLog.LoggedCropCells | interactive.py:316-319 | a logged row holds all four crop columns as decimal text |
| InteractivePage.ChangedRowsSnoc | pages/2_Interactive.py:38-42 | one more row adds its index to the changed rows exactly when its score changed |
| InteractivePage.ChangesCountsChangedRows | pages/2_Interactive.py:34-42 | the count is the number of rows i ≥ 1 whose score differs from row i − 1's, so at most rows − 1 |
| InteractivePage.GetSessionSummary | pages/2_Interactive.py:20-58 | None for a missing or empty log; a KeyError when a later row lacks a score column; otherwise the row count, the last row's fields and the number of score changes |
| InteractivePage.LoggedScoresCompare | pages/2_Interactive.py:39 | two logged rows' score texts are equal exactly when their integer scores are |
| InteractivePage.LoggedLog | interactive.py:340-349 | the log written for a session: one row per logged frame, in order |
| InteractivePage.LoggedHasScores | interactive.py:312-327 | every row the viewer logged has both score columns |
| InteractivePage.LoggedScoreAt | pages/2_Interactive.py:36-42 | the loop reads a logged row's score as the text of the integer logged |
| InteractivePage.LoggedChangedAt | pages/2_Interactive.py:39 | a logged row's score text changed exactly when its integer score did |
| InteractivePage.LoggedChangedRows | pages/2_Interactive.py:34-42 | for a log the viewer wrote, the changed rows are those whose logged score changed |
| InteractivePage.LoggedChanges | pages/2_Interactive.py:34-42 | for a log the viewer wrote, the count of changes is the number of rows whose integer score differs from the row before |
| RenderPage.ReadLogSummary | pages/3_Render.py:38-61 | None exactly for a missing or empty log; otherwise the row count and the last row's timestamp, scores and half, each with its default |
| RenderPage.LoggedSummary | pages/3_Render.py:38-61 | for a log the viewer wrote, the summary shows the logged frame count and the last row's score and half, which parse back to the logged integers |

## Left out

- Float rounding is not modelled: numbers are exact reals. This covers `int(total·p)`, banker's `round` in the frame offset, `float32` pixel arithmetic, and the "%.3f" timestamp, which is taken as given text.
- OpenCV's vision calls are foreign and appear as parameters: SIFT, `knnMatch`, `findHomography`, `perspectiveTransform`, `warpPerspective`, `cvtColor` and `resize`. The pixel content of a resized frame is not modelled. The renderer records the crop and letterbox of each written frame instead.
- Video and image I/O, JSON and CSV files, and directory creation are not modelled. This covers `VideoCapture`, `VideoWriter`, `imread`, `load_calibration`, the file write in `save_calibration` and in `calibrate_multi`, `save_log` and `get_video_info`. Frame streams are sequences and logs are lists of maps. Releasing handles in `finally` is not modelled either, because there are no handles.
- Subprocesses are not modelled: ffprobe in `get_timecode`, ffmpeg in `extract_audio`, `mux_audio`, `_get_ffmpeg_path` and `_get_ffprobe_path`. The timecode tags and each extraction's success are inputs.
- The audio numerics are not modelled: `load_audio`'s conversion to mono float, the normalisation and the FFT convolution. The correlation sequence is an input, so the recovery of a synthetic offset to within 33 ms cannot be stated.
- smoother.py is not modelled: it is floating-point easing driven by the wall clock.
- Pillow drawing, font lookup and text measurement are not modelled (`_find_font`, `_load_font`, `_measure_text`, the `bar_draw` calls). Name widths and the painted image are parameters. The LANCZOS resize of the overlay is an input array too.
- pygame is not modelled: the display, joystick, key polling, `draw_frame`, and frame pacing with sleep. Each frame's events and held keys are inputs.
- The Streamlit UI is not modelled: app.py, `open_file_dialog`, `get_stitch_preview_frame`, and the pages' `main` bodies apart from the arithmetic modelled in `StitchPage`.
- Members that tests refer to but interactive.py does not define are not modelled: `handle_joystick`, the `axis_*`/`snap_*` settings, `get_scoreboard_state`.
- Text.TrimStart: states only that no more characters remain and that the first is not whitespace, not that the removed ones were whitespace. The same holds for Text.TrimEnd at the other end.
- Text.ParseInt: Python's acceptance of '_' digit separators and non-ASCII digits is not modelled.
- Text.ParseFloat: reads a sign, decimal digits with an optional point and an optional exponent. It does not read `float()`'s "inf" and "nan" spellings or '_' separators. `Stitch.ElementToFloat` reads "inf" and "nan" itself. In `SessionLog.LogDuration` and the seconds field of a timecode, such text counts as not a number.
- Stitch.ElementToFloat: text with '_' digit separators, such as "1_0", is a ValueError here; numpy reads it as a float. A homography that contains such text is rejected with ValueError instead of being loaded.
- SessionLog.LogDuration: a timestamp spelled "nan" or "inf" falls back to frames / 30. Python would return a non-finite duration.
- Text.Lower: lower-cases ASCII letters only, while `str.lower` also maps other letters. The extension tests compare with ASCII-only spellings such as ".wav" and ".jpg". The only non-ASCII character whose lower-case form is a single ASCII letter is the Kelvin sign, which becomes 'k', and no spelling contains a 'k'. So the result of the tests is the same.
- SyncAudio.UniquePeakGivesOffset: the reading that a positive offset means the right recording leads is not stated, because the correlation sequence is an input.
- Stitch.PairLoop: records each pair handed to stitch_frame rather than the canvas written. `StitchFrame.Compose` states that canvas for one pair. The left frames' sizes are an input function.
- SessionLog.LoggedRow: CSV quoting is not modelled, because no logged cell holds a comma, quote or newline. A row longer than the header, which `DictReader` gathers under a `None` key, is not modelled either.
- Stitch.CheckFields: a canvas, blend or offset value that is a JSON float or text is reported as a TypeError at validation. The source accepts a positive float canvas and fails later, inside OpenCV.
- Render.RowOutcomeOf: an exception the source does not catch, a `TypeError` from `int(None)` on a short line, is modelled as the render ending with that error.
- Interactive.InteractiveViewer.Run: the crop of the first frame is created by `OpenVideo`, and the video's fps and frame count are inputs.
