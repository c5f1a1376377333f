# Video editor: a verified model of its scene pipeline

The video editor lets a user upload a clip, split it into scenes automatically, and place each
scene on a fixed output canvas (crop, scale, position). It then exports the result: one ffmpeg
transcode per scene, then a stream-copy concat into one file.

This project models that pipeline in Dafny, module by module:

- **`DetectScenes`** (`detect_scenes.dfy`) is the Python scene detector. Its sampling loop
  records a boundary at every sampled frame that differs enough from the previous sample. The
  duration closes the list, and consecutive boundaries are paired into scenes. The command-line
  entry point and the `os.path.splitext` naming of its log file are modelled too.
- **`Utils`** (`utils.dfy`) is the backend helper file:
  - the mapping from a scene's virtual-canvas transform to target pixels;
  - the two textual filter-graph builders `getFilters` and `getComplexFilter`, each proved
    against a decoder that reads the geometry back;
  - the concat manifest of `mergeScenes`, and where that manifest is written.
- **`Server`** (`server.dfy`) is the `/export` handler:
  - request validation;
  - resolution parsing, with the `1080x1920` default for the virtual canvas;
  - one job per scene writing `processed/scene_<i+1>.mp4`;
  - `Promise.all`, so the merge runs only when every scene succeeded;
  - the merge into `processed/final_video.mp4`, and the responses.
- **`EditorStore`** (`editor_store.dfy`) is the zustand store: `setScenes`, and `updateScene`
  with its shallow merge. It also holds the `findIndex` lookup by playhead time that the views
  share.
- **`Preview`** (`preview.dfy`) is the preview component:
  - `computeFinalOutputRect`, proved to be exactly the region the output canvas shows;
  - the move and scale drags, proved to translate the frame by the mouse offset and to resize it
    about its centre;
  - the corner-handle hit test;
  - `getActiveScene`;
  - the mouse state machine, as a class with the component's state as fields;
  - the animation frame's jump over gaps in final-result mode;
  - the letterbox used when no scene is active.
- **`Timeline`** (`timeline.dfy`) is the timeline component: percentage placement, scene
  markers and click-to-seek.
- **`SceneConfig`** (`scene_config.dfy`) is the settings panel:
  - `Number(value) || 0` coercion;
  - the nine field edits and the reset;
  - the write-back to the store.
- **`Text`** and **`Wrappers`** are shared helpers: decimal rendering and parsing of integers,
  `split`/`join` on one character, and `Option`/`Result`.

External processes are parameters of the model:

- `transcode` and `concat` are the outcomes of the two ffmpeg steps.
- Frame differences, fps, frame count and duration are inputs of the detector.
- The video's current time is an `Option<real>`, where `None` means there is no video element.

JavaScript numbers are modelled as `real`, so rounding is exact. `Math.floor` is `.Floor`.

## Model

| member | source | states |
|---|---|---|
| DetectScenes.SampleBoundaries | video-editor-backend/detect_scenes.py:31-57 | the loop's boundaries are `[0.0]` followed by the sampled cuts `Cuts`, in frame order (loop invariants) |
| DetectScenes.CutsMembers | video-editor-backend/detect_scenes.py:43-50 | a time is a cut iff some earlier frame is sampled (`k % skip == 0`), has a previous sample (`k > 0`), exceeds the threshold and `t == k / fps` |
| DetectScenes.CutsBounded | video-editor-backend/detect_scenes.py:43-50 | every cut among the first `n` frames lies strictly between 0 and `n / fps` |
| DetectScenes.CutsIncreasing | video-editor-backend/detect_scenes.py:38-57 | the cuts strictly increase |
| DetectScenes.BoundariesIncreasing | video-editor-backend/detect_scenes.py:31-57 | the sampled boundaries start at 0 and strictly increase |
| DetectScenes.CloseBoundaries | video-editor-backend/detect_scenes.py:64-65 | the duration is appended exactly when the last boundary is before it; the result then ends at or after the duration, keeps its first element and stays strictly increasing |
| DetectScenes.PairScenes | video-editor-backend/detect_scenes.py:70-75 | one scene per consecutive pair of boundaries, scene `i` being `(b[i], b[i+1])` |
| DetectScenes.PairedScenesTile | video-editor-backend/detect_scenes.py:70-75 | for boundaries from 0 that strictly increase, the scenes start at 0, end at the last boundary, each ends where the next starts, and none is empty |
| DetectScenes.Detect | video-editor-backend/detect_scenes.py:17-77 | the two error messages for a missing and an unreadable file; otherwise the scenes paired from the closed boundaries, which tile the clip from 0 without empty scenes |
| DetectScenes.LastBefore | video-editor-backend/detect_scenes.py:86 | the index found is the last occurrence of the character among the first `n`, or -1 when there is none |
| DetectScenes.LastIndexOf | video-editor-backend/detect_scenes.py:86 | the index found holds the character and no later index does, or -1 when there is none |
| DetectScenes.LastBeforePrefix | video-editor-backend/detect_scenes.py:86 | the search within the first `n` characters does not depend on what follows them |
| DetectScenes.LastIndexOfAppend | video-editor-backend/detect_scenes.py:86 | appending text without the character leaves its last occurrence unchanged |
| DetectScenes.SplitExt | video-editor-backend/detect_scenes.py:86 | the stem and the extension concatenate back to the path; a non-empty extension is one dot followed by neither '/' nor '.' |
| DetectScenes.ExtensionShape | video-editor-backend/detect_scenes.py:86 | what follows the last dot of the last path component is a dot and then neither '/' nor '.' |
| DetectScenes.SplitExtAt | video-editor-backend/detect_scenes.py:86 | with a character other than '.' in the file name before its last dot, the stem ends at that dot |
| DetectScenes.LogFileBesideVideo | video-editor-backend/detect_scenes.py:86 | for any directory, file name and extension, the log file is the same directory and name with `_scenes.log` in place of the extension |
| DetectScenes.LogFileOfDotFile | video-editor-backend/detect_scenes.py:86 | a leading dot does not start an extension: `.clip` logs to `.clip_scenes.log` |
| DetectScenes.Cli | video-editor-backend/detect_scenes.py:80-87 | the missing-path outcome exactly when fewer than two arguments are given, carrying the message "No video path provided" and exit status 1; otherwise the first argument is the video, the log is named after it, the detector runs with its defaults (threshold 30.0, every 10th frame, line 17) and the exit status is 0 |
| EditorStore.Merge | video-editor-frontend/src/store/editorStore.js:11 | each key present in the patch replaces the scene's value whole; each absent key is kept |
| EditorStore.MergeAllKeys | video-editor-frontend/src/store/editorStore.js:11 | a patch holding every key yields exactly the patch's scene |
| EditorStore.MergeNothing | video-editor-frontend/src/store/editorStore.js:11 | an empty patch changes nothing |
| EditorStore.Updated | video-editor-frontend/src/store/editorStore.js:8-13 | the list keeps its length; slot `index` becomes the merge and every other slot is unchanged |
| EditorStore.UpdateIdempotent | video-editor-frontend/src/store/editorStore.js:8-13 | applying the same update twice equals applying it once |
| EditorStore.UpdatesCommute | video-editor-frontend/src/store/editorStore.js:8-13 | updates of two different slots commute |
| EditorStore.Store.constructor | video-editor-frontend/src/store/editorStore.js:4 | the store starts with no scenes |
| EditorStore.Store.SetScenes | video-editor-frontend/src/store/editorStore.js:6 | the list becomes the argument |
| EditorStore.Store.UpdateScene | video-editor-frontend/src/store/editorStore.js:8-13 | the new list is `Updated(old list, index, data)` |
| EditorStore.FindIndex | video-editor-frontend/src/components/Preview/Preview.jsx:58-61 | the lowest index satisfying the predicate, with no earlier one satisfying it, or -1 exactly when none does |
| EditorStore.ActiveIndexSpec | video-editor-frontend/src/components/Preview/Preview.jsx:58-61 | the active index is the first scene whose range, ends included, holds the time, or -1 exactly when none does |
| EditorStore.NextIndexSpec | video-editor-frontend/src/components/Preview/Preview.jsx:239 | the next index is the first scene starting after the time, or -1 exactly when none does |
| EditorStore.SceneAt | video-editor-frontend/src/components/SceneConfig/SceneConfig.jsx:32-43 | the first covering scene and its index, or no scene and -1 exactly when no scene covers the time |
| Preview.SizeAt | video-editor-frontend/src/components/Preview/Preview.jsx:77-78 | a non-zero output side shows a non-zero extent |
| Preview.ScaleFor | video-editor-frontend/src/components/Preview/Preview.jsx:504 | the scale chosen for a size is non-zero and shows exactly that size (inverse of `SizeAt`) |
| Preview.PositionFor | video-editor-frontend/src/components/Preview/Preview.jsx:431-432 | the position chosen for a frame origin maps back to exactly that origin (inverse of the origin formula of lines 80-81) |
| Preview.FinalOutputRect | video-editor-frontend/src/components/Preview/Preview.jsx:65-84 | the rectangle exists exactly when the scale is non-zero |
| Preview.AxisEdges | video-editor-frontend/src/components/Preview/Preview.jsx:80-81 | along one axis, the origin of the rectangle is drawn at output pixel 0 and its far edge at the output side |
| Preview.FinalRectIsOutputFrame | video-editor-frontend/src/components/Preview/Preview.jsx:65-84 | the canvas transform of lines 138-143 draws the rectangle's edges exactly at 0 and at the output width and height |
| Preview.PreviewMatchesExport | video-editor-frontend/src/components/Preview/Preview.jsx:138-139 | the export's overlay offset (utils.js lines 125-126) is the preview's translation rounded down |
| Preview.Snapshot | video-editor-frontend/src/components/Preview/Preview.jsx:339-358 | the recorded state is consistent: its rectangle is the scene's output rectangle and its centre is that rectangle's centre |
| Preview.MoveTranslatesRect | video-editor-frontend/src/components/Preview/Preview.jsx:419-434 | a move drag by (dx, dy) keeps the frame's size and moves its centre by exactly (dx, dy) |
| Preview.SameProportion | video-editor-frontend/src/components/Preview/Preview.jsx:499-504 | the scale chosen from the width resizes the height by the same factor |
| Preview.ResizedAbout | video-editor-frontend/src/components/Preview/Preview.jsx:499-508 | the rectangle resized by `f` has both sides times `f` and the same centre |
| Preview.ResizedPatchParts | video-editor-frontend/src/components/Preview/Preview.jsx:499-517 | a scale drag's patch holds only scale and position: the scale shows `f` times the width, and the position puts the new frame's corner at the centre minus half the new size |
| Preview.ResizedFrame | video-editor-frontend/src/components/Preview/Preview.jsx:499-517 | for a frame whose sides are the output's at the scene's scale, the patched scene's rectangle is the frame resized by `f` about its centre |
| Preview.ResizeKeepsCenter | video-editor-frontend/src/components/Preview/Preview.jsx:499-517 | from any valid drag snapshot, resizing by a non-zero `f` writes only scale and position, and the new output rectangle is the old one resized by `f` about the same centre |
| Preview.ScaleKeepsCenter | video-editor-frontend/src/components/Preview/Preview.jsx:454-517 | a scale drag writes nothing exactly when its factor is 0; otherwise the frame is resized by that factor about its centre, keeping its aspect ratio |
| Preview.MaxRatio | video-editor-frontend/src/components/Preview/Preview.jsx:493-497 | the larger of the two ratios makes both half extents fit, with equality on at least one axis |
| Preview.PositiveSides | video-editor-frontend/src/components/Preview/Preview.jsx:77-78 | at a positive scale the frame has positive sides |
| Preview.ScaleFactorReachesCorner | video-editor-frontend/src/components/Preview/Preview.jsx:470-497 | the factor is the smallest that keeps the dragged corner inside the resized frame: that corner lies on the new frame's edge on at least one axis |
| Preview.FirstHitSpec | video-editor-frontend/src/components/Preview/Preview.jsx:297-307 | no corner exactly when the point is on no handle; otherwise the corner named is the first handle in order under the point |
| Preview.HitTestCornerHandles | video-editor-frontend/src/components/Preview/Preview.jsx:288-308 | the loop returns the first of the four handles, in top-left, top-right, bottom-left, bottom-right order, whose 10-pixel square holds the point, borders included (loop invariant) |
| Preview.GetActiveScene | video-editor-frontend/src/components/Preview/Preview.jsx:55-63 | with no video, no scene and -1; otherwise the first scene covering the current time and its index, or -1 exactly when none covers it |
| Preview.PressOutcomeSpec | video-editor-frontend/src/components/Preview/Preview.jsx:319-393 | a press starts a drag exactly when a scene is active, its scale is non-zero and the point is on a handle or inside the frame; a handle hit gives a scale drag of that corner, else a move drag; the snapshot is of the active scene |
| Preview.PlaybackTimeSpec | video-editor-frontend/src/components/Preview/Preview.jsx:235-244 | outside final-result mode, or inside a scene, the time is kept without seeking; otherwise it jumps to the first later scene's start, or to 0 when none follows, with a seek |
| Preview.FinalModeSkipsGaps | video-editor-frontend/src/components/Preview/Preview.jsx:238-242 | with well-formed scenes and a later scene, the jump lands inside a scene |
| Preview.Controller.constructor | video-editor-frontend/src/components/Preview/Preview.jsx:25-39 | no drag in progress, drag start at the origin, last drawn time 0 |
| Preview.Controller.MouseDown | video-editor-frontend/src/components/Preview/Preview.jsx:319-393 | the drag state becomes the outcome of `PressOutcome`, with the press point as drag start; with no outcome nothing changes |
| Preview.Controller.MouseMove | video-editor-frontend/src/components/Preview/Preview.jsx:395-519 | while dragging over an active scene, that scene's slot is updated with the drag's patch; otherwise the store is unchanged |
| Preview.Controller.EndDrag | video-editor-frontend/src/components/Preview/Preview.jsx:521-539 | the drag flag, mode, handle and snapshot are cleared; the drag start and frame clock are kept |
| Preview.Controller.MouseUp | video-editor-frontend/src/components/Preview/Preview.jsx:521-529 | ends any drag, as `EndDrag` states |
| Preview.Controller.MouseLeave | video-editor-frontend/src/components/Preview/Preview.jsx:531-539 | ends any drag, as `EndDrag` states |
| Preview.Controller.AnimationStep | video-editor-frontend/src/components/Preview/Preview.jsx:220-248 | a frame reports a time exactly when the video's time moved since the last frame; the report is `PlaybackTime` of that time, and the time is recorded |
| Preview.Letterbox | video-editor-frontend/src/components/Preview/Preview.jsx:98-116 | the drawn area fits in the output and is centred, and fills one side; it is the full frame when the two aspect ratios are within 0.0001, and otherwise it has the video's aspect ratio |
| Timeline.TimeToPercentage | video-editor-frontend/src/components/Timeline/Timeline.jsx:14 | the percentage times the duration is 100 times the time |
| Timeline.PercentageBounds | video-editor-frontend/src/components/Timeline/Timeline.jsx:14 | 0 is at 0% and the duration at 100%; the mapping is monotone and keeps times within the clip within 0-100% |
| Timeline.Markers | video-editor-frontend/src/components/Timeline/Timeline.jsx:47-55 | one marker per scene, in list order |
| Timeline.MarkersSpanScenes | video-editor-frontend/src/components/Timeline/Timeline.jsx:47-55 | a marker runs from its scene's start to its end in percent, and is highlighted exactly when its scene covers the current time |
| Timeline.FirstActiveMarker | video-editor-frontend/src/components/Timeline/Timeline.jsx:50 | the first highlighted marker is the scene the preview treats as active; none is highlighted exactly when none is active |
| Timeline.HandleSeekSpec | video-editor-frontend/src/components/Timeline/Timeline.jsx:16-43 | with no video nothing is sought; outside final-result mode, or inside a scene, the clicked time is sought; in a gap the seek jumps forward to the next scene's start, or is dropped when no scene starts later |
| Timeline.FinalModeSeekLandsInScene | video-editor-frontend/src/components/Timeline/Timeline.jsx:25-40 | with well-formed scenes, every time sought in final-result mode lies inside a scene |
| Timeline.SeekAgreesWithPlayback | video-editor-frontend/src/components/Timeline/Timeline.jsx:25-42 | a click and the playback frame move over gaps to the same time; past the last scene the click does nothing, while playback goes to 0 |
| SceneConfig.FracValue | video-editor-frontend/src/components/SceneConfig/SceneConfig.jsx:60 | the digits after a point are worth at least 0 and less than 1 |
| SceneConfig.DotIndex | video-editor-frontend/src/components/SceneConfig/SceneConfig.jsx:60 | the first '.' in the text, or -1 when there is none |
| SceneConfig.CoerceToZero | video-editor-frontend/src/components/SceneConfig/SceneConfig.jsx:60 | the empty text, and any text with a character that cannot be in a number, coerce to 0 |
| SceneConfig.UnsignedDecimalChars | video-editor-frontend/src/components/SceneConfig/SceneConfig.jsx:60 | an unsigned decimal is made of digits and points only |
| SceneConfig.UnsignedWhole | video-editor-frontend/src/components/SceneConfig/SceneConfig.jsx:60 | a rendered natural number reads as its value |
| SceneConfig.CoerceWhole | video-editor-frontend/src/components/SceneConfig/SceneConfig.jsx:60 | a typed whole number, with or without a minus sign, is taken at its value |
| SceneConfig.DotAfterWhole | video-editor-frontend/src/components/SceneConfig/SceneConfig.jsx:60 | the first point of `whole.frac` is right after the whole part |
| SceneConfig.UnsignedDecimalParts | video-editor-frontend/src/components/SceneConfig/SceneConfig.jsx:60 | `whole.frac` over digits reads as the whole part plus the fraction's value |
| SceneConfig.UnsignedDecimalOf | video-editor-frontend/src/components/SceneConfig/SceneConfig.jsx:60 | a rendered natural number followed by `.frac` reads as that number plus the fraction's value |
| SceneConfig.CoerceDecimal | video-editor-frontend/src/components/SceneConfig/SceneConfig.jsx:60 | a typed decimal `n.frac` is taken at `n` plus the fraction's value |
| SceneConfig.Set | video-editor-frontend/src/components/SceneConfig/SceneConfig.jsx:57-160 | the edited field takes the value and every other field of the nine keeps its value, nested crop and position fields included |
| SceneConfig.FieldsDetermineScene | video-editor-frontend/src/components/SceneConfig/SceneConfig.jsx:13-21 | two scenes showing the same nine fields are equal |
| SceneConfig.EditChangesOneField | video-editor-frontend/src/components/SceneConfig/SceneConfig.jsx:57-160 | after typing into one input, that input shows the coerced text and every other input shows what it showed before |
| SceneConfig.EditsCommute | video-editor-frontend/src/components/SceneConfig/SceneConfig.jsx:57-160 | edits of two different inputs commute |
| SceneConfig.EditOverrides | video-editor-frontend/src/components/SceneConfig/SceneConfig.jsx:57-160 | a second edit of the same input overrides the first |
| SceneConfig.ResetSpec | video-editor-frontend/src/components/SceneConfig/SceneConfig.jsx:23-30 | reset keeps start and end, shows crop 0,0,1280,720, scale 1 and position 0,0, and a second reset changes nothing |
| SceneConfig.Push | video-editor-frontend/src/components/SceneConfig/SceneConfig.jsx:45-49 | the store is written exactly when there is a scene and a found index, at that index, with every key of the scene |
| SceneConfig.EditReachesStore | video-editor-frontend/src/components/SceneConfig/SceneConfig.jsx:32-49 | typing into one input while a scene is under the playhead changes exactly that field of that scene in the store, and nothing else |
| SceneConfig.NoSceneNoWrite | video-editor-frontend/src/components/SceneConfig/SceneConfig.jsx:13-21 | with no scene under the playhead, every input shows 0, and neither an edit nor a reset writes to the store |
| SceneConfig.RepushIsIdempotent | video-editor-frontend/src/components/SceneConfig/SceneConfig.jsx:45-49 | pushing the same scene back again leaves the list as the first push left it |
| Server.VirtualResolutionText | video-editor-backend/server.js:106 | a virtual resolution that is absent or empty gives `1080x1920`; otherwise it is used as given |
| Server.ParseResolution | video-editor-backend/server.js:105-108 | a parsed resolution comes from a string holding at least one 'x' |
| Server.ResolutionsOf | video-editor-backend/server.js:105-108 | any resolutions returned have a virtual canvas with no zero side |
| Server.ParseResolutionRoundTrip | video-editor-backend/server.js:105 | `WxH` parses to `(W, H)` |
| Server.ParseResolutionIgnoresRest | video-editor-backend/server.js:105 | the parts after the second are ignored |
| Server.DefaultVirtualCanvas | video-editor-backend/server.js:106-108 | without a virtual resolution the canvas is 1080 wide and 1920 high |
| Server.SegmentPaths | video-editor-backend/server.js:126 | `n` segment paths, path `i` being that of scene `i` |
| Server.SegmentPathInjective | video-editor-backend/server.js:126 | distinct scenes write distinct segment files |
| Server.SegmentIsNotFinal | video-editor-backend/server.js:126 | no segment overwrites the final video (line 160) |
| Server.ManifestPathIn | video-editor-backend/utils.js:28 | for an output file in a directory, the manifest is `file_list.txt` in that directory |
| Server.FinalManifestPath | video-editor-backend/utils.js:28 | an export's manifest is `processed/file_list.txt` (server.js line 160) |
| Server.SegmentPathsNoNewlines | video-editor-backend/server.js:126 | no segment path holds a newline, so the manifest lists them faithfully |
| Server.ProcessScene | video-editor-backend/server.js:115-155 | a job exists exactly when the scene has both crop and transform; the job reads the video, writes the scene's segment, starts at the scene's start, lasts `end - start`, maps `[out]`, and its filter graph decodes to the scene's placement |
| Server.Dispatch | video-editor-backend/server.js:158 | one outcome per scene, in order, outcome `i` being that of scene `i` with index `i` |
| Server.RunScenes | video-editor-backend/server.js:158-159 | the jobs reaching ffmpeg are those dispatched, in order; all succeed exactly when every scene's job exists and its transcode ends well; then the resolved files are the segment paths in scene order (loop invariants) |
| Server.Export | video-editor-backend/server.js:83-188 | an invalid request gets a 400 and nothing runs; a failure to ensure the output directory gets the outer-catch 500 "Failed to process video" with the thrown message as details, and nothing is dispatched; otherwise every scene is dispatched, and a failure gives the 500 "Failed to process scenes" with the rejection as details and no merge. The merge runs exactly when all succeeded: its manifest decodes to the segment paths in request order, and the response is 200 with `processed/final_video.mp4` or the 500 "Failed to merge videos" with ffmpeg's message as details |
| Server.SpawnedOutputsDistinct | video-editor-backend/server.js:126 | jobs writing to their own scene's segment have pairwise distinct outputs |
| Server.SpawnedOutputsBefore | video-editor-backend/server.js:126 | each spawned job writes one of the first `n` segment paths |
| Server.DispatchedOutputsDistinct | video-editor-backend/server.js:158 | the transcodes of one export write pairwise distinct files |
| Utils.Offset | video-editor-backend/utils.js:100-105 | the offset is the floor of the virtual position scaled to the target |
| Utils.ScaledSize | video-editor-backend/utils.js:108-109 | the scaled size is the floor of size times scale |
| Utils.OffsetIdentity | video-editor-backend/utils.js:100-105 | when the virtual canvas equals the target, a whole-pixel position is kept |
| Utils.OffsetMonotone | video-editor-backend/utils.js:100-105 | a larger position never gives a smaller offset |
| Utils.NegativePositionNegativeOffset | video-editor-backend/utils.js:100-105 | a position before the canvas's origin gives a negative offset, never 0 |
| Utils.ScaleOneKeepsSize | video-editor-backend/utils.js:108-109 | at scale 1 the scaled crop is the crop |
| Utils.DoubleScaleAtOrigin | video-editor-backend/utils.js:100-109 | scale 2 of a 100x100 crop at the origin gives 200x200 at offset 0,0 |
| Utils.ParseIntsRoundTrip | video-editor-backend/utils.js:113 | rendered integers read back as themselves |
| Utils.ArgsRoundTrip | video-editor-backend/utils.js:113 | a `a:b:c` argument list reads back as the integers it was rendered from |
| Utils.ArgsHasNo | video-editor-backend/utils.js:113 | an argument list holds no character other than digits, '-' and ':' |
| Utils.GetFilters | video-editor-backend/utils.js:91-122 | three filters (crop, scale, black pad) that decode to the scene's placement |
| Utils.GetComplexFilter | video-editor-backend/utils.js:124-141 | three graph entries (crop and scale into `[scaled]`, a black `[bg]`, the overlay into `[out]`) that decode to the scene's placement |
| Utils.FiltersRoundTrip | video-editor-backend/utils.js:111-121 | the three `getFilters` strings of any graph decode to that graph |
| Utils.CropScaleParts | video-editor-backend/utils.js:133 | the crop/scale entry splits into its crop and scale argument lists |
| Utils.CropScaleRoundTrip | video-editor-backend/utils.js:133 | the crop/scale entry decodes to its crop and scaled size |
| Utils.SizeParts | video-editor-backend/utils.js:136 | the background entry splits into its width and height |
| Utils.SizeRoundTrip | video-editor-backend/utils.js:136 | the background entry decodes to its width and height, negatives included |
| Utils.OverlayRoundTrip | video-editor-backend/utils.js:139 | the overlay entry decodes to its offsets |
| Utils.ComplexFilterRoundTrip | video-editor-backend/utils.js:131-140 | the three `getComplexFilter` entries of any graph decode to that graph |
| Utils.BuildersAgree | video-editor-backend/utils.js:91-141 | both builders describe the same geometry for the same inputs |
| Utils.ManifestLines | video-editor-backend/utils.js:31-32 | one line per path |
| Utils.ManifestContent | video-editor-backend/utils.js:31-33 | the manifest is empty exactly when there are no paths, and otherwise ends with a quote |
| Utils.ManifestEnds | video-editor-backend/utils.js:31-33 | the emptiness and closing-quote facts of the joined lines |
| Utils.DecodeLinesRoundTrip | video-editor-backend/utils.js:32 | the `file '<path>'` lines read back as the paths |
| Utils.ManifestLinesNoNewline | video-editor-backend/utils.js:32 | paths without newlines give lines without newlines |
| Utils.ManifestRoundTrip | video-editor-backend/utils.js:31-33 | when no path holds a newline, the manifest lists exactly the given paths, in order |
| Utils.ManifestOfOne | video-editor-backend/utils.js:31-33 | one path gives one line |
| Utils.ManifestOfTwo | video-editor-backend/utils.js:31-33 | two paths give two lines joined by a newline |
| Utils.ManifestUnescaped | video-editor-backend/utils.js:32 | paths are not escaped: one path holding a quote and a newline gives the same manifest as two paths |
| Utils.DirEnd | video-editor-backend/utils.js:28 | the directory part ends with '/' (or is empty), and no '/' follows it |
| Utils.ManifestPath | video-editor-backend/utils.js:28 | the manifest is `file_list.txt` in the output's directory, which the output's last component follows |
| Utils.MergeScenes | video-editor-backend/utils.js:26-58 | the manifest is written beside the output, and lists exactly the files when none holds a newline. The concat reads the manifest and writes the output; the merge resolves with the output path exactly when the concat ends well, and the manifest is left behind exactly when it fails |
| Text.DigitChar | video-editor-backend/utils.js:113 | a digit character with the given value |
| Text.NatToString | video-editor-backend/utils.js:113 | at least one digit and nothing but digits, a single one exactly below 10 |
| Text.IntToString | video-editor-backend/utils.js:113 | digits and '-' only, starting with '-' exactly for negative numbers |
| Text.DigitsOfNat | video-editor-backend/server.js:105 | the digits of a rendered number are worth the number |
| Text.NatRoundTrip | video-editor-backend/server.js:105 | a rendered natural number parses back to itself |
| Text.ParseDigits | video-editor-backend/utils.js:113 | digits parse to their value, and with a leading '-' to its negation |
| Text.IntRoundTrip | video-editor-backend/utils.js:113 | a rendered integer, negative ones included, parses back to itself |
| Text.NatToStringInjective | video-editor-backend/server.js:126 | distinct numbers render to distinct strings |
| Text.Split | video-editor-backend/server.js:105 | `split` always gives at least one piece |
| Text.SplitNoSep | video-editor-backend/server.js:105 | text without the separator splits into itself |
| Text.SplitFirst | video-editor-backend/server.js:105 | the first piece ends at the first separator |
| Text.SplitPair | video-editor-backend/server.js:105 | two pieces without the separator, joined by it, split back into the two |
| Text.SplitJoin | video-editor-backend/utils.js:31-33 | splitting a join recovers the pieces when none holds the separator |
| Text.StripAffixOf | video-editor-backend/utils.js:133-139 | removing a known prefix and suffix gives back the middle |
| Text.NatStringHasNo | video-editor-backend/utils.js:113 | a rendered natural number holds no character other than digits |
| Text.IntStringHasNo | video-editor-backend/utils.js:113 | a rendered integer holds no character other than digits and '-' |

## Left out

- Processes and I/O:
  - ffmpeg, ffprobe, OpenCV and moviepy are not modelled. Their outcomes are parameters:
    `transcode`, `concat`, and the frame differences, fps, frame count and duration.
  - Not modelled: HTTP transport, multer uploads, `/upload`, `/detect-scenes`, `/processed/:filename`, file
    system calls (`existsSync`, `mkdirSync`, `writeFileSync`, `unlinkSync`), logging, the
    detector's log-file writing and its JSON printing.
  - `getVideoMetadata` and the backend's `db.js` are not part of this model.
- Concurrency:
  - `Promise.all` is modelled by its outcome. Every job is dispatched, and the merge needs all of
    them to succeed.
  - The order in which concurrent transcodes finish, and the first-rejection error message, are
    not modelled.
  - React's asynchronous state updates and effect scheduling are modelled as immediate.
- Numbers are `real`:
  - IEEE rounding, `NaN` and `Infinity` are not modelled.
  - Pixel coordinates are exact. `Math.floor` of a real is `Floor`.
- Preview.FinalOutputRect: a scale of 0, which the source turns into infinite or NaN
  coordinates, gives `None`. As the source's comparisons on NaN do, a press then starts no drag.
- Preview.ScalePatch: a factor of 0 (corner dropped on the centre) writes nothing. The source
  would store an infinite scale.
- Timeline.TimeToPercentage: requires a positive duration. The editor starts with a duration of 0
  and sets the scenes before the video's metadata arrives, so the first timeline render gives
  NaN or Infinity percentages for the markers and the playhead; that render is not modelled.
- Preview.Letterbox: requires positive video dimensions. Before the video's metadata loads,
  `videoWidth` and `videoHeight` are 0 and the source computes a NaN aspect ratio; that case
  is not modelled.
- Preview.Controller: `finalResultMode` is a constant of the controller. The source's animation
  loop captures `isFinalResultMode` when its effect runs, and that effect does not list the flag
  among its dependencies, so toggling the mode during playback changes gap skipping only once
  another dependency changes. The model fixes one captured value per controller and does not
  model the stale capture.
- Preview.Controller.MouseDown: mouse coordinates are taken already in crop-canvas pixels.
  `getMousePosInCanvas` (the bounding-box conversion) is not modelled.
- Preview: the `resolution` and `virtualResolution` props are taken as already-parsed positive
  numbers. Their `split('x').map(Number)` is modelled only on the backend (`Server.ParseResolution`).
- Preview: the drawing calls are modelled only by their geometry (`DrawnX`/`DrawnY`,
  `Letterbox`, `Handles`): `drawImage`, `fillRect`, `strokeRect`, colours and the red crop
  outline are not. So are the container sizing effect and `requestAnimationFrame` scheduling.
- SceneConfig.JsNumber: it models `Number()` only on the empty string and on decimals with an optional sign
  and one point. Exponents, hexadecimal, surrounding whitespace and `Infinity` are treated
  as NaN, which `|| 0` turns into 0.
- SceneConfig.Edit: with no current scene, the model leaves the panel empty. The source then
  builds a partial record for a start, end or scale edit, and throws a TypeError for a crop or
  position edit. Neither is ever written to the store, because the index is -1 (`NoSceneNoWrite`).
  Reset has the same limit.
- SceneConfig.RepushIsIdempotent: states that a repush leaves the scene list equal by value.
  Reference identity is not modelled. In the source `updateScene` always builds a new array and
  a new scene object, so the panel's effects on `[currentTime, scenes]` and `[currentScene]` keep
  finding a new object and pushing it again while a scene is under the playhead; that render and
  store-write loop is not captured.
- EditorStore.Store.UpdateScene: requires an index inside the list. Every caller passes an index
  it found in the list; an index outside it, which JavaScript would turn into a new sparse slot,
  is not modelled.
- Utils.CropRect: crop coordinates are whole numbers. The source takes any JSON number and
  renders fractional crop values into the ffmpeg filters as decimals (`crop=12.5:…`) and
  multiplies them by the scale in real arithmetic; fractional crops reaching `GetFilters`,
  `GetComplexFilter`, `ScaledSize` or `Server.ProcessScene` are not modelled.
- Server.Export: requires that the target and virtual resolutions parse, and that the virtual
  one has no zero side (`Usable`). Other requests in the source give NaN or Infinity in the
  filter strings, which ffmpeg rejects; those are not modelled.
- Server.Export: request fields are strings or absent. A truthy non-string `targetResolution` or
  `virtualResolution`, whose `.split` throws into the outer catch, is not modelled; the outer
  catch is reached only through the directory step (`dirError`). The `details` messages of the
  three 500 responses are parameters, not derived from ffmpeg or from the rejection order.
- Server.NumberOf: `Number()` on the resolution parts is modelled for digit strings only. The
  empty string counts as 0.
- Server: the backend `processed/` directory is the relative path `processed/`, not
  `path.join(__dirname, 'processed')`. `Utils.ManifestPath` models `path.dirname` and `path.join`
  on normalised POSIX paths only.
- Server.ProcessScene: a scene missing `crop` or `transform` gives an error, standing for the
  TypeError that rejects that scene's promise. Other malformed scene fields are not modelled.
- DetectScenes.Detect: requires `fps > 0`. A zero fps raises ZeroDivisionError at the first cut
  in the source, which is not modelled. The loop reads `frameCount` frames where the source
  reads until `cap.read()` fails. The progress log every `frame_skip * 100` frames is not
  modelled.
- DetectScenes.SplitExt: models `os.path.splitext` for POSIX paths only.
