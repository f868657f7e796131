# python-helpers scripts, modelled in Dafny

This project models the logic that the HarryDuncan/python-helpers scripts compute themselves.
Their heavy work is done by Blender, meshlib, pymeshlab, trimesh, open3d, PIL and moviepy. The
model covers the code around those calls:

- **Text layout.** `calculate_text_layout` appears in both stencil scripts. It wraps the words of
  `text.split()` greedily into lines no wider than `max_width - 2 * side_margin`, then places each
  word on the plane. The stencil helpers are modelled too: plane subdivisions, the `safe_word`
  sanitiser, where cutters are placed and the custom-font guard.
- **Airflow holes.**
  - `np.arange` on each axis and the x-major grid of hole positions, on its own or centred.
  - The cylinder cutters.
  - The `add_airflow_holes` fold, which subtracts one cutter after another and keeps the previous
    mesh when a boolean operation fails.
  - The `get_user_input` loops, which re-prompt until they get a positive number.
  - The save-format check and the extension rule of 3d-mesh/airflow.py.
- **Box walls.** This covers the boxes of `create_wall_mesh` and the two L-shaped pieces they
  leave. It also covers the wall-type prompt, the box script's input loops and its output file
  names.
- **OBJ merge** (`merge_obj_files`):
  - vertex, normal and face lines are sorted into buckets by prefix and stripped;
  - the buckets are concatenated in a fixed order and the result is joined by newlines.
- **Hue shift.** Hue bytes are rotated modulo 256, and `even_hue_shift` computes evenly spaced
  factors. The `si<n>.jpg` output names are modelled too.
- **Small helpers:**
  - the centred video-trim window, the `.mp4` filter and the output names;
  - the word-image names and canvases;
  - the six cube-map crop boxes;
  - the resize size and file name;
  - the mesh-simplification targets.

Millimetres and factors are exact `real`s. Python's `int()` on a float is `Numeric.Trunc`,
which truncates toward zero. Meshes are a type parameter `M`. A boolean operation is a
parameter function, and a `None` result means the operation was invalid or raised. Typed
input, directory listings, file contents, image sizes, clip durations and text measurement are
all parameters too.

The modules follow the scripts:

| module | file | script |
|---|---|---|
| `TextLayout` | layout.dfy | printing/stencil.py, printing/text_stencil.py |
| `HoleGrid` | grid.dfy | the hole grids shared by all airflow scripts |
| `Airflow` | airflow.dfy | create_airflow.py, printing/create_airflow.py, 3d-mesh/airflow.py |
| `AirflowBox` | walls.dfy | printing/create_airflow_box.py |
| `ObjMerge` | objmerge.dfy | model-manipulation/mergeModels.py |
| `HueShift` | hueshift.dfy | image-manipulation/hue-shift.py |
| `VideoTrim` | videos.dfy | video-manipulation/format_videos.py |
| `WordImages` | wordimages.dfy | image-manipulation/text_images.py |
| `CubeSplit` | cubesplit.dfy | image-manipulation/image-split.py |
| `ImageResize` | resize.dfy | image-manipulation/image-resize.py |
| `Simplify` | simplify.dfy | model-manipulation/simplifyModel.py |

The shared modules are these:

- `Strings` models Python's `split`, `strip`, `lower`, `str(n)`, `{:03d}`, `"\n".join`,
  `split("\n")`, `os.path.join` and `os.path.splitext`.
- `Numeric` models `int()` and ceiling.
- `Seqs` holds sequence lemmas.
- `Wrappers` holds `Option` and `Result`.

The two copies of `create_airflow.py` are identical, and the box script's `add_airflow_holes`
is the same code. All three share `Airflow.AddAirflowHoles`. The two `calculate_text_layout`
functions also differ only in the names of their results, so both share
`TextLayout.CalculateTextLayout`.

## Model

| member | source | states |
|---|---|---|
| TextLayout.BreakLines | printing/stencil.py:215-244 | The greedy loop's result is well broken. Its lines flatten back to the words in order, none is empty, and every word after a line's first was admitted by `current_width + word_width <= available`. For `h >= 0`, no line was closed while the next line's first word would still have fitted. The same holds at printing/text_stencil.py:114-143. |
| TextLayout.StepJoin | printing/stencil.py:228-230 | A word that passes the width test joins the current line, and the loop invariant still holds. |
| TextLayout.StepBreak | printing/stencil.py:231-235 | A word that fails the test closes a non-empty current line and starts a new one. The invariant still holds, and the closed line is maximal. |
| TextLayout.StepAlone | printing/stencil.py:236-240 | A word too long for an empty line is put on a line of its own, and the running width is reset. |
| TextLayout.Finish | printing/stencil.py:242-243 | Appending the last, non-empty current line completes a well-broken result. |
| TextLayout.RunWidthClosed | printing/stencil.py:222-230 | `current_width` is the sum of the word widths plus one `0.3 h` spacing per word. |
| TextLayout.RunWidthSign | printing/stencil.py:220-243 | For `h > 0`, `current_width` is zero exactly when the current line is empty, and it is never negative for `h >= 0`. |
| TextLayout.MultiWordLineFits | printing/stencil.py:216-231 | On a line of several words, the estimated widths plus the spacings between the words stay within `max_width - 2 * side_margin`. The same holds at printing/text_stencil.py:115-130. |
| TextLayout.CheckedLineFits | printing/stencil.py:228-230 | The last join test of a line bounds the whole line. |
| TextLayout.CheckedLineWordsFit | printing/stencil.py:228-230 | For `h >= 0`, every word on a multi-word line fits the available width on its own. |
| TextLayout.OverlongWordAlone | printing/stencil.py:232-243 | For `h >= 0`, a word wider than the available width sits alone on its line. It is never split or dropped. The same holds at printing/text_stencil.py:131-143. |
| TextLayout.GreedyBreakUnique | printing/stencil.py:224-243 | For `h >= 0`, only one breaking of the words is well broken. So the greedy loop's output is the breaking the conditions describe. |
| TextLayout.FirstLineNotShorter | printing/stencil.py:228-240 | If two breakings are both well broken, neither first line is shorter than the other. |
| TextLayout.TailWellBroken | printing/stencil.py:224-243 | Dropping the first line of a well-broken result leaves a well-broken breaking of the remaining words. |
| TextLayout.PlaceWords | printing/stencil.py:250-266 | The nested placement loop produces exactly `Placement(lines)`; `x_offset` and `y_offset` are tracked by loop invariants. The same holds at printing/text_stencil.py:149-165. |
| TextLayout.PlacementAt | printing/stencil.py:251-266 | Word `j` of line `i` is at index the number of words on earlier lines plus `j`. It stores its own text, `x = side_margin + current_width` of the words before it, `y = top_margin + 1.5 h i` and `line = i`. The first word of a line is at `x = side_margin`. The same holds at printing/text_stencil.py:150-165. |
| TextLayout.PlacementWords | printing/stencil.py:215-261 | Every word of every line appears exactly once in `word_positions`, in order. |
| TextLayout.WordAdvance | printing/stencil.py:254-264 | Within a line, each word's x is the previous word's x plus `0.6 h len(prev) + 0.3 h`. The same holds at printing/text_stencil.py:153-163. |
| TextLayout.LineYClosed | printing/stencil.py:251-266 | The y of line `i` is `top_margin + 1.5 h i`. |
| TextLayout.LineYStep | printing/stencil.py:266 | Each line is one text height and one line spacing below the one before. |
| TextLayout.LinePlacementSnoc | printing/stencil.py:255-264 | Placing one more word of a line appends its position, and the running x grows by its width and a spacing. |
| TextLayout.PlacementSnoc | printing/stencil.py:253-266 | Placing one more line appends that line's positions. |
| TextLayout.LinePlacementAt | printing/stencil.py:254-264 | Within a line, word `j` is at `side_margin` plus the running width of the words before it. |
| TextLayout.PlaneHeight | printing/stencil.py:247 | For `n > 0` lines, the height is the y of the last line plus one text height and the bottom margin, which is `n h + (n - 1) 0.5 h + 2 top_margin`. |
| TextLayout.CalculateTextLayout | printing/stencil.py:201-268 | The results are `max_width`, `PlaneHeight(n)`, `Placement(lines)` and a well-broken breaking of `text.split()` within `max_width - 2 * side_margin`. The same holds at printing/text_stencil.py:100-167. |
| TextLayout.PlaneSubdivisions | printing/stencil.py:286-287 | The count is `int(dim / 10)` clamped to `[10, 50]`, with each clamping case stated. |
| TextLayout.TextureSubdivisions | printing/text_stencil.py:189-190 | The count is at least 50, and it is `int(dim / (0.1 h))` when that is larger. A zero text height divides by zero, which gives `None`. |
| TextLayout.SafeWord | printing/stencil.py:329 | The result has the same length. Alphanumeric characters are kept and every other character becomes `_`. |
| TextLayout.SafeWordIdempotent | printing/stencil.py:329 | Sanitising twice gives the same result as sanitising once. |
| TextLayout.CutterLocation | printing/text_stencil.py:238-245 | The cutter is at the centre of the word's estimated box, `(x + 0.3 h len, y + h / 2)`, at z = 1. For `h >= 0` that point lies inside the box. The same holds at printing/stencil.py:450-455. |
| TextLayout.CustomFontIffFontFile | printing/text_stencil.py:221-223 | A custom font load is attempted exactly when the path ends in `.ttf` or `.otf`; the non-empty and not-`Arial` tests add nothing. Whether the load then succeeds is not modelled. |
| HoleGrid.Arange | 3d-mesh/airflow.py:42-43 | The progression raises (`None`) exactly when the step is 0. |
| HoleGrid.ArangeRising | create_airflow.py:125-126 | For a positive step, every value lies in `[start, stop)` and the next value would reach `stop`. So the progression is exactly `start + k S` below `stop`. The same holds at printing/create_airflow.py:125-126. |
| HoleGrid.ArangeFalling | 3d-mesh/airflow.py:42-43 | For a negative step, every value lies in `(stop, start]` and the next one would reach `stop`. |
| HoleGrid.ArangeEmpty | 3d-mesh/airflow.py:42-43 | With a positive step and `stop <= start` there are no values. |
| HoleGrid.Row | 3d-mesh/airflow.py:49-51 | Gives one hole per y value, in order. |
| HoleGrid.Grid | create_airflow.py:129-132 | The hole count is `len(xs) * len(ys)`. |
| HoleGrid.GridAt | create_airflow.py:129-132 | Hole `(i, j)` is at index `i * len(ys) + j`: the list is x-major and holds every pair exactly once. The same holds at printing/create_airflow.py:129-132. The same holds at printing/create_airflow_box.py:268-272. |
| HoleGrid.GridWithin | 3d-mesh/airflow.py:46-51 | Every hole lies in the shifted box spanned by the axis values. |
| HoleGrid.GridPositions | create_airflow.py:129-132 | The nested append loop produces exactly the x-major grid. |
| HoleGrid.CenteredHolePositions | 3d-mesh/airflow.py:41-53 | The holes are the x-major grid of the axis values, each at `(x - W/2, y - L/2)`. The result is `None` exactly for a zero spacing. |
| HoleGrid.CenteredNoHoles | 3d-mesh/airflow.py:42-43 | A rectangle at most `2 S` wide or long gets no holes. |
| HoleGrid.CenteredHolesInside | 3d-mesh/airflow.py:42-51 | Every centred hole has `S - W/2 <= x < W/2 - S` and `S - L/2 <= y < L/2 - S`. |
| HoleGrid.CenteredExample | 3d-mesh/airflow.py:41-53 | A 20 by 20 rectangle with spacing 5 gets exactly the four holes at -5 and 0 on each axis. |
| Airflow.CenteredCutter | 3d-mesh/airflow.py:84-87 | The cylinder has radius `hole_diameter / 2` and height `thickness + 2`, is centred on the hole and sticks out 1 beyond both faces. |
| Airflow.MeshlibCutter | create_airflow.py:140-143 | The cylinder has length `thickness + 2`, is moved to `(x, y, center_z - thickness/2 - 1)` and spans both faces with 1 to spare. The same holds at printing/create_airflow.py:140-143. The same holds at printing/create_airflow_box.py:280-285. |
| Airflow.HoleCutters | create_airflow.py:138-145 | Gives one cutter per hole position, in order. |
| Airflow.ApplyCuttersStep | create_airflow.py:148-158 | A failed subtraction (invalid or raising) keeps the previous mesh, and a successful one replaces it. |
| Airflow.ApplyCuttersAppend | create_airflow.py:137-160 | Subtracting one list of cutters and then another equals subtracting their concatenation. |
| Airflow.Succeeded | create_airflow.py:148-158 | The successful cutters are a sub-collection of the cutters. |
| Airflow.SucceededApply | create_airflow.py:137-160 | The result is the strict in-order application of exactly the successful subtractions. The same holds at printing/create_airflow.py:137-160. The same holds at printing/create_airflow_box.py:277-300. |
| Airflow.AllFailedUnchanged | create_airflow.py:148-158 | When every subtraction fails, the mesh comes back unchanged and no cutter succeeded. |
| Airflow.AddAirflowHoles | create_airflow.py:119-160 | The result is the fold of the cutters of the x-major grid from `min + S` below `max - S`. It is `None` exactly for a zero spacing. The same holds at printing/create_airflow.py:119-160. The same holds at printing/create_airflow_box.py:258-300. |
| Airflow.CutHoles | create_airflow.py:137-160 | The loop that reassigns `result_mesh` computes the fold, tracked by a loop invariant. |
| Airflow.HolesInsideBounds | create_airflow.py:125-126 | Every hole centre satisfies `min + S <= x < max - S`, and the same for y. The same holds at printing/create_airflow_box.py:265-266. |
| Airflow.NarrowMeshUnchanged | create_airflow.py:125-126 | A mesh at most `2 S` wide or long gets no holes and comes back unchanged. The same holds at printing/create_airflow.py:125-126. The same holds at printing/create_airflow_box.py:265-266. |
| Airflow.AcceptPositive | create_airflow.py:60-68 | An answer is accepted only if it is positive. An empty answer gives the default where the prompt has one and is rejected where it has none, since `float("")` raises. Otherwise the parse decides, in both directions. |
| Airflow.FirstAnswerAccepted | create_airflow.py:40-47 | The answer found is what the acceptor gives for the line just before the returned index, which lies after `start`. |
| Airflow.FirstAnswerRejectsBefore | create_airflow.py:40-47 | Every line read before the answer was rejected; when the input runs out, every remaining line was rejected. |
| Airflow.FirstAccepted | create_airflow.py:40-47 | The `while True` loop returns exactly `FirstAnswer`: the first accepted answer from `start` and the index of the line after it. |
| Airflow.OrDefault | create_airflow.py:92 | `input() or default`: an empty answer gives the default, and any other answer is kept. |
| Airflow.DefaultedAnswersPositive | create_airflow.py:60-88 | The thickness, radius and spacing read in turn are all positive, and the next line comes after the ones they read. |
| Airflow.GetUserInput | create_airflow.py:40-92 | The six prompts return exactly `UserInput`. Each number is the first accepted answer after the line that answered the previous prompt, and the file name is the next line or `airflow_mesh.stl`. The same holds at printing/create_airflow.py:40-92. |
| Airflow.UserInputPositive | create_airflow.py:40-92 | Whatever is typed, the settings returned have five positive numbers and a non-empty file name. |
| Airflow.UserInputDefaults | create_airflow.py:62-92 | A typed width and length followed by four empty answers give thickness 1.5, radius 1.0, spacing 5.0 and file `airflow_mesh.stl`. |
| Airflow.UserInputTyped | create_airflow.py:40-92 | Six typed answers that are all accepted become the settings, in prompt order. |
| Airflow.UserInputRetriesWidth | create_airflow.py:40-47 | A rejected width answer (empty, not a number, or not positive) is skipped, and the next answer becomes the width. |
| Airflow.CheckFormat | 3d-mesh/airflow.py:185-192 | The format is accepted exactly when its lower-cased form is `stl`, `obj` or `ply`. Otherwise the error is `Unsupported format: <format>`. |
| Airflow.CheckFormatIgnoresCase | 3d-mesh/airflow.py:185-192 | Acceptance does not depend on letter case. |
| Airflow.WithExtension | 3d-mesh/airflow.py:262-263 | The result ends in `.<format>`. A name that already ends in it is kept, and any other name gets it appended. |
| Airflow.WithExtensionIdempotent | 3d-mesh/airflow.py:262-263 | Adding the extension twice gives the same result as adding it once. |
| AirflowBox.CreateWallMesh | printing/create_airflow_box.py:177-237 | Returns two pieces: the outer box minus the inner box, then minus the north-east or the south-west cutter. |
| AirflowBox.WallTypeIgnored | printing/create_airflow_box.py:214-237 | The result does not depend on `wall_type`. |
| AirflowBox.Piece1IsSouthWest | printing/create_airflow_box.py:194-227 | With the inner box `(W-2t, L-2t, H+2)` at `(t, t, 0)` and the cutter `(W, L, H+2)` at `(t, t, -1)`, the first piece is exactly the part of the box within `t` of `x = 0` or `y = 0`. |
| AirflowBox.Piece2IsNorthEast | printing/create_airflow_box.py:194-234 | With the cutter at `(-t, -t, -1)`, the second piece is exactly the part within `t` of `x = W` or `y = L`. |
| AirflowBox.PiecesCoverWalls | printing/create_airflow_box.py:211-234 | Together the two pieces make up all of the walls. |
| AirflowBox.PiecesOverlapInCorners | printing/create_airflow_box.py:211-234 | The two pieces overlap exactly in the north-west and south-east `t` by `t` corner columns. |
| AirflowBox.AcceptWallType | printing/create_airflow_box.py:108-113 | The answer is lower-cased and defaults to `full` when empty. It is accepted exactly when it is `full`, `l-shaped` or `l`. |
| AirflowBox.WallTypeIgnoresCase | printing/create_airflow_box.py:109 | The wall-type answer does not depend on letter case. |
| AirflowBox.GetBoxUserInput | printing/create_airflow_box.py:43-113 | The prompts return exactly `BoxUserInput`. Each number is the first accepted answer after the previous prompt's line, the prefix is the next line or `airflow`, and the wall type is the first accepted answer after that. |
| AirflowBox.BoxUserInputPositive | printing/create_airflow_box.py:43-105 | Whatever is typed, the settings returned have six positive numbers and a non-empty prefix. |
| AirflowBox.BoxUserInputWallTypeValid | printing/create_airflow_box.py:108-113 | Whatever is typed, the wall type returned is `full`, `l-shaped` or `l`. |
| AirflowBox.BoxUserInputDefaults | printing/create_airflow_box.py:73-113 | Three typed sizes followed by five empty answers give thickness 1.5, radius 1.0, spacing 5.0, prefix `airflow` and a `full` box. |
| AirflowBox.BoxUserInputWallType | printing/create_airflow_box.py:105-113 | After the typed numbers and prefix, a rejected wall type is asked again, and the next accepted answer decides the type. |
| AirflowBox.BoxOutputFiles | printing/create_airflow_box.py:356-360 | Four `.stl` files are saved, each starting with the prefix, whatever the wall type. |
| AirflowBox.BoxOutputFilesDistinct | printing/create_airflow_box.py:356-360 | The four saved names are pairwise distinct, so no file overwrites another. |
| AirflowBox.ReportedFilesAsWritten | printing/create_airflow_box.py:365-372 | For `full`, the report lists three files. For any other wall type, it lists the four saved files. |
| AirflowBox.ReportedFileNeverSaved | printing/create_airflow_box.py:368-369 | With the default wall type, the report names `airflow_walls.stl`, which is never saved. |
| AirflowBox.ReportedFiles | printing/create_airflow_box.py:356-372 | The corrected report is the list of saved files: four names, and the same as the report as written for every wall type but `full`. |
| AirflowBox.ReportedFilesAreSaved | printing/create_airflow_box.py:356-372 | The corrected report names every saved file once and nothing else. |
| ObjMerge.Classify | model-manipulation/mergeModels.py:19-24 | A line is a vertex, normal or face line exactly when it starts with `v `, `vn ` or `f `. |
| ObjMerge.InputsAt | model-manipulation/mergeModels.py:10-15 | There are `num_files` inputs, and input `i` is read from `<root><prefix>-<i>.obj`. |
| ObjMerge.InputPathsDistinct | model-manipulation/mergeModels.py:10-11 | Different file numbers give different paths, so no file is read twice. |
| ObjMerge.OutputName | model-manipulation/mergeModels.py:30 | The output is `<prefix>-merged.obj`. |
| ObjMerge.BucketsSnoc | model-manipulation/mergeModels.py:18-24 | Each new line goes, stripped, to the bucket of its kind, if it has one. |
| ObjMerge.MergeObjFiles | model-manipulation/mergeModels.py:3-34 | The nested loops build the three buckets of all lines, file after file. The output name and the newline-joined contents follow from them. |
| ObjMerge.BucketAppend | model-manipulation/mergeModels.py:10-27 | The buckets of concatenated files are the concatenated buckets, so each bucket keeps file order and then line order. |
| ObjMerge.AllLinesSnoc | model-manipulation/mergeModels.py:10-15 | A later file's lines come after those of the files before it. |
| ObjMerge.BucketMembers | model-manipulation/mergeModels.py:19-24 | A bucket holds exactly the stripped lines of its kind. |
| ObjMerge.BucketHas | model-manipulation/mergeModels.py:19-24 | Every line of a kind contributes its stripped text to that kind's bucket. |
| ObjMerge.BucketFrom | model-manipulation/mergeModels.py:19-24 | Everything in a bucket comes from a line of that kind. |
| ObjMerge.EachLineOnce | model-manipulation/mergeModels.py:19-24 | Every line goes to exactly one bucket or is dropped: the bucket sizes add up to the line count. |
| ObjMerge.OtherLinesDropped | model-manipulation/mergeModels.py:19-24 | Lines other than `v `, `vn ` and `f ` lines contribute nothing to the output. |
| ObjMerge.KeptLineVerbatim | model-manipulation/mergeModels.py:20-27 | A kept line is copied unchanged up to its trailing whitespace, so face indices are not renumbered. |
| ObjMerge.StrippedHasNoNewline | model-manipulation/mergeModels.py:15-20 | Stripping a line from `readlines()` removes its newline. |
| ObjMerge.BucketHasNoNewline | model-manipulation/mergeModels.py:15-24 | No kept line holds a newline. |
| ObjMerge.ContentsRoundTrip | model-manipulation/mergeModels.py:30-32 | Splitting the text passed to `write` on newlines gives back the merged lines, so that text holds exactly those lines with no trailing newline. |
| HueShift.RotateHue | image-manipulation/hue-shift.py:17 | The new hue is a byte, congruent to `i + shift` modulo 256. |
| HueShift.ShiftHue | image-manipulation/hue-shift.py:6-22 | Every hue is rotated by `int(255 factor)`, and S and V pass through unchanged. |
| HueShift.RotateHueMod | image-manipulation/hue-shift.py:17 | A rotation depends only on its shift modulo 256. |
| HueShift.RotateHueCompose | image-manipulation/hue-shift.py:17 | Two rotations combine into one rotation by the sum of the shifts. |
| HueShift.RotateHueZero | image-manipulation/hue-shift.py:17 | Rotating by 0 changes nothing. |
| HueShift.RotateHueInverse | image-manipulation/hue-shift.py:17 | Rotating back by the same amount restores every hue. |
| HueShift.RotateHueInjective | image-manipulation/hue-shift.py:17 | A rotation never maps two hues to the same value. |
| HueShift.ShiftHueUndone | image-manipulation/hue-shift.py:14-17 | Shifting by the opposite number of steps gives back the image. |
| HueShift.EvenHueShift | image-manipulation/hue-shift.py:24-37 | Returns exactly `num_variations` results, and result `i` is shifted by the factor `i / num_variations`. |
| HueShift.EvenShiftClosedForm | image-manipulation/hue-shift.py:14-30 | The shift of variation `i` is `(255 i) // n`, which lies in `0 .. 254`. |
| HueShift.EvenShiftFirst | image-manipulation/hue-shift.py:30 | The first variation has shift 0 and is the original image. |
| HueShift.EvenShiftMonotone | image-manipulation/hue-shift.py:14-30 | Shifts never decrease from one variation to the next. |
| HueShift.SavedName | image-manipulation/hue-shift.py:49-50 | Result `i` is saved as `si<i+1>.jpg`. |
| HueShift.SavedNamesDistinct | image-manipulation/hue-shift.py:49-50 | No two results share a file name. |
| VideoTrim.TrimWindow | video-manipulation/format_videos.py:9-14 | The window is always `duration` long and never starts before 0. If `duration <= total`, it lies inside the clip with equal margins. Otherwise it is `(0, duration)`. |
| VideoTrim.TrimWindowCentred | video-manipulation/format_videos.py:10-11 | The window is the only one of its length with equal margins. |
| VideoTrim.Mp4Files | video-manipulation/format_videos.py:19 | Every file kept has a lower-cased name ending in `.mp4`. |
| VideoTrim.Mp4FilesMembers | video-manipulation/format_videos.py:19 | A name is processed exactly when it is listed and is an `.mp4`. |
| VideoTrim.Mp4FilesAppend | video-manipulation/format_videos.py:19-21 | The filter keeps listing order. |
| VideoTrim.UpperCaseMp4Accepted | video-manipulation/format_videos.py:19 | Upper-case extensions are accepted. |
| VideoTrim.TrimTarget | video-manipulation/format_videos.py:14-23 | The output is `output_folder/<output_name>_<k>.mp4`. |
| VideoTrim.ProcessFolder | video-manipulation/format_videos.py:17-23 | Gives one job per `.mp4` file in listing order. Job `k` reads that file, writes target `k` and keeps the centred window. |
| VideoTrim.JobsKeepDuration | video-manipulation/format_videos.py:10-11 | Every job keeps exactly `duration` seconds, starting at or after 0. |
| VideoTrim.TrimTargetsDistinct | video-manipulation/format_videos.py:21-23 | Different indices give different targets, so no output overwrites another. |
| WordImages.Clean | image-manipulation/text_images.py:39 | The cleaned word holds only ASCII letters and digits. |
| WordImages.CleanAppend | image-manipulation/text_images.py:39 | Cleaning distributes over concatenation, so the letters and digits keep their order. |
| WordImages.CleanKeepsAlnum | image-manipulation/text_images.py:39 | A word made only of letters and digits is not changed. |
| WordImages.CleanIdempotent | image-manipulation/text_images.py:39 | Cleaning twice gives the same result as cleaning once. |
| WordImages.CleanExample | image-manipulation/text_images.py:39-45 | `IT'S` becomes `ITS`. |
| WordImages.CleanDropsOther | image-manipulation/text_images.py:39 | A single character that is not an ASCII letter or digit is removed. |
| WordImages.CleanKeepsChar | image-manipulation/text_images.py:39 | A single ASCII letter or digit is kept. |
| WordImages.WordImageNameShape | image-manipulation/text_images.py:39 | The name starts with `word_` and ends with `.png`, so it is never an absolute path. |
| WordImages.WordImageNamesDistinct | image-manipulation/text_images.py:27-39 | Different numbers give different names, whatever the words are. |
| WordImages.Canvas | image-manipulation/text_images.py:29-36 | The canvas is the measured size plus 10 in each direction, with the text at (5, 5), leaving 5 on each side. |
| WordImages.CreateWordImages | image-manipulation/text_images.py:19-27 | There are no images when the font fails to load. Otherwise there is one image per word of `text.split()`. |
| WordImages.WordImageAt | image-manipulation/text_images.py:26-40 | Image `k` is word `k`'s: it is saved as `word_<k+1 padded>_<clean>.png` in the output directory, on that word's canvas. |
| WordImages.WordImagePathsDiffer | image-manipulation/text_images.py:39 | Images with different numbers are saved at different paths. |
| WordImages.WordImagePathsDistinct | image-manipulation/text_images.py:26-40 | All saved paths are pairwise distinct, so no image overwrites another. |
| WordImages.WordImagesFollowText | image-manipulation/text_images.py:26-39 | For a text made by joining words with spaces, image `k` carries word `k`. |
| CubeSplit.FacesAreCells | image-manipulation/image-split.py:9-18 | Left, right, top, front and back are the grid cells (0,1), (2,1), (1,0), (1,1) and (2,0). Bottom is cell (1,2) stretched to the full height. |
| CubeSplit.FaceSizes | image-manipulation/image-split.py:13-18 | Five faces are `width // 3` by `height // 3`, and the bottom face also takes the `height % 3` leftover rows. |
| CubeSplit.FacesInImage | image-manipulation/image-split.py:13-18 | Every crop box lies inside the image. |
| CubeSplit.FacesDisjoint | image-manipulation/image-split.py:13-18 | No two faces overlap. |
| CubeSplit.EvenImageBottomIsCell | image-manipulation/image-split.py:16 | When the height divides by 3, the bottom face is a plain cell. |
| ImageResize.JpegSkipped | image-manipulation/image-resize.py:6 | Files ending in `.jpeg` are not picked up. |
| ImageResize.UpperCaseJpgAccepted | image-manipulation/image-resize.py:6 | `.JPG` is picked up. |
| ImageResize.NewSize | image-manipulation/image-resize.py:9 | Each side is `side * factor` truncated to a whole pixel. |
| ImageResize.ShrinkNeverGrows | image-manipulation/image-resize.py:9 | A factor in `[0, 1]` never enlarges a side. |
| ImageResize.HalfSize | image-manipulation/image-resize.py:9-18 | The script's own factor of 0.5 gives `(w // 2, h // 2)`. |
| ImageResize.ResizedName | image-manipulation/image-resize.py:11 | The new name ends with `-resized.jpg`. |
| ImageResize.ResizedNameIsJpg | image-manipulation/image-resize.py:6-11 | The resized copy is itself a `.jpg`. |
| ImageResize.ResizedNameDiffers | image-manipulation/image-resize.py:11-14 | A copy never overwrites its original. |
| ImageResize.ResizeImagesInFolder | image-manipulation/image-resize.py:5-14 | There is one job per `.jpg` of the listing, in listing order. Job k reads the k-th `.jpg`, writes its `-resized.jpg` copy in the same folder, and scales it to `(int(w * f), int(h * f))` of that image's size. |
| ImageResize.JpgFilesMembers | image-manipulation/image-resize.py:5-6 | A name is picked up exactly when it is listed and its lower-cased form ends with `.jpg`. |
| ImageResize.JpgFilesAppend | image-manipulation/image-resize.py:5-6 | The filter keeps listing order. |
| ImageResize.EveryJpgResized | image-manipulation/image-resize.py:5-14 | Every listed `.jpg` gets a job that writes its resized copy at the truncated scaled size. |
| ImageResize.OnlyJpgResized | image-manipulation/image-resize.py:5-14 | Every job is the resize of some listed `.jpg`. |
| ImageResize.ResizeJobsAppend | image-manipulation/image-resize.py:5-14 | The jobs of a listing split in two are the first part's jobs followed by the rest's, so saves happen in listing order. |
| ImageResize.RootBeforeOnlyDot | image-manipulation/image-resize.py:11 | A name like `a.ext`, with no other dot and no slash, has root `a`. |
| ImageResize.CaseVariantsShareOutput | image-manipulation/image-resize.py:11 | `a.jpg` and `a.JPG` both become `a-resized.jpg`. |
| ImageResize.LaterCopyOverwrites | image-manipulation/image-resize.py:5-14 | For the listing `a.jpg` then `a.JPG`, both jobs write the same file and the `a.JPG` job comes second, so its copy is the one left. |
| ImageResize.ResizedNameKeepsInnerDots | image-manipulation/image-resize.py:11 | Only the last extension is cut, whatever its case: `a.b.JPG` becomes `a.b-resized.jpg`. |
| ImageResize.ResizedNameOfDotFile | image-manipulation/image-resize.py:11 | A name whose only dot is its first character keeps it all: `.jpg` becomes `.jpg-resized.jpg`. |
| Simplify.QuadricTarget | model-manipulation/simplifyModel.py:17-29 | A percentage outside `(0, 1]` raises before loading, and an empty mesh raises next. Otherwise the target is `max(2, int(n p))`. |
| Simplify.QuadricTargetBounded | model-manipulation/simplifyModel.py:29 | The quadric target is at most `max(2, n)`. |
| Simplify.QuadricTargetMonotone | model-manipulation/simplifyModel.py:29 | A larger percentage never gives a smaller target. |
| Simplify.QuadricFullTargetIsVertexCount | model-manipulation/simplifyModel.py:29 | With `p = 1` and at least two vertices, the target is the vertex count itself. |
| Simplify.ClusteringTarget | model-manipulation/simplifyModel.py:60-70 | The percentage is checked first. The target `int(n p)` is unclamped, lies in `[0, n]`, and is positive exactly when `n p >= 1`. |
| Simplify.ClusteringTargetCanBeZero | model-manipulation/simplifyModel.py:70-71 | The clustering target can be 0, for a one-vertex mesh and for an empty one. |
| Simplify.EmptyMeshPaths | model-manipulation/simplifyModel.py:23-70 | The quadric path refuses an empty mesh; the clustering path goes on with a 0 target. |
| Strings.WordsAreWords | printing/stencil.py:215 | Every item of `split()` is non-empty and free of whitespace. |
| Strings.WordsCoverText | printing/stencil.py:215 | `split()` loses nothing but whitespace: its words hold every other character, in order. |
| Strings.WordsOfJoinSpaced | image-manipulation/text_images.py:26 | Splitting words joined by spaces gives the words back. |
| Strings.StripShape | model-manipulation/mergeModels.py:20 | `strip()` gives empty exactly for all-whitespace input. Otherwise the result neither starts nor ends with whitespace. |
| Strings.StripIsMiddle | model-manipulation/mergeModels.py:20 | `strip()` keeps a middle slice and cuts only whitespace from either side. |
| Strings.TrailingStartSpans | model-manipulation/mergeModels.py:20 | Everything after the last non-whitespace character is whitespace. |
| Strings.LowerChar | video-manipulation/format_videos.py:19 | `lower()` maps `A`–`Z` to `a`–`z` and leaves every other character alone. |
| Strings.LowerAppend | image-manipulation/image-resize.py:6 | Lower-casing distributes over concatenation. |
| Strings.DigitsValueOfNatToString | image-manipulation/hue-shift.py:50 | Reading back the digits of `str(n)` gives `n`. |
| Strings.NatToStringInjective | image-manipulation/hue-shift.py:50 | `str(n)` is injective. |
| Strings.ZeroPad3Pads | image-manipulation/text_images.py:39 | `{i:03d}` gives all digits, exactly three unless `i` needs more, and reads back as `i`. |
| Strings.NumberedNamesDistinct | video-manipulation/format_videos.py:23 | Names `pre + str(i) + suf` differ for different `i` when the suffix does not start with a digit. |
| Strings.SplitOnJoinWith | model-manipulation/mergeModels.py:32 | Splitting the `"\n".join` of newline-free parts gives the parts back. |
| Strings.JoinWithEndsWithLast | model-manipulation/mergeModels.py:32 | The joined text ends with the last part; nothing follows it. |
| Strings.PathJoinInjective | video-manipulation/format_videos.py:14 | `os.path.join` of one directory with two relative names is injective. |
| Strings.SplitExtRoot | image-manipulation/image-resize.py:11 | `os.path.splitext(p)[0]` is a prefix of `p`. |
| Numeric.Trunc | image-manipulation/image-resize.py:9 | `int()` truncates toward zero, so the result is within 1 of `x` and on the same side of 0. |

## Left out

- **Foreign engines.** The Blender, meshlib, trimesh, pymeshlab, open3d, PIL and moviepy calls are outside the model. That covers mesh and image creation, booleans, decimation, clustering, cleanup, HSV conversion, resampling, text measurement and encoding. The boolean difference and text measurement are parameters, and meshes and images are opaque.
- **Terminal and files.** `input()` is a sequence of typed lines plus a parse function. `float()` parsing is that parameter. `print`, `sys.exit`, temp files, `os.makedirs`, file writes and the hard-coded Windows paths are left out. What is modelled is the text passed to `write`. Text-mode newline translation is not modelled; on Windows it writes each `\n` as `\r\n`. Directory listings, file contents, image sizes and clip durations are parameters.
- **Paths.** `os.path.join` and `os.path.splitext` follow `posixpath`, with `/` as the separator. The scripts' hard-coded Windows paths would run under `ntpath`, which also joins with `\` and handles drive letters; that is not modelled.
- **Floating point.** All arithmetic is exact; float rounding in `np.arange` and elsewhere is not modelled.
- **Letters.** `lower()`, `isalnum()` and the regex class are modelled for ASCII letters and digits only. Whitespace for `split()` and `strip()` follows Python's full `isspace` set.
- TextLayout.SafeWord: Python's `isalnum` also accepts non-ASCII letters and digits; the model keeps only ASCII ones.
- TextLayout.BreakLines: greedy maximality (no line closed while the next word still fitted) is stated only for a non-negative text height. For a negative height, widths shrink as words are added, and only the word order, the non-empty lines and the checked joins are promised.
- printing/stencil.py:330-339 (the debug OBJ export) and the progress messages are not modelled.
- 3d-mesh/airflow.py:78-139 is not modelled. This is the pymeshlab per-hole loop, which calls `generate_boolean_intersection` and reloads the base box on failure; it is foreign-library sequencing. Only the hole positions and cutter sizes around it are modelled.
- 3d-mesh/airflow.py:198-239 is not modelled: its `get_user_input` parses with plain `float()` and defaults, with no re-prompting. The re-prompting loops of the other airflow scripts are modelled.
- 3d-mesh/airflow.py:270-273 (statistics printed from attributes the mesh set lacks) is not modelled.
- printing/create_airflow_box.py:127-174 is not modelled: `create_top_mesh` and `create_bottom_mesh` pass a meshlib cube to `add_airflow_holes`.
- AirflowBox.CreateWallMesh: cubes are measured from meshlib's common anchor. The inner box is moved by `(t, t, 0)`, as at printing/create_airflow_box.py:205, although the comment at line 204 says -1 in z.
- Airflow.CenteredCutter: the cylinder's axis is taken to be z; trimesh's orientation is not modelled.
- Simplify.QuadricTarget: only the target passed to `simplify_quadric_decimation` (model-manipulation/simplifyModel.py:36) is modelled. That target is computed from vertices, but open3d reads its argument as a triangle count, so what the mesh keeps is not stated, even at `p = 1`.
- Simplify.ClusteringTarget: the voxel size `diagonal / target ** (1/3)` (model-manipulation/simplifyModel.py:68-71) is not computed; only the target that feeds it is.
- The percentage error message of model-manipulation/simplifyModel.py:18 says "exclusive", but the test on line 17 accepts a percentage of 1. The model follows the test and keeps the message text.
- HueShift.ShiftHue: the RGB/HSV conversions (image-manipulation/hue-shift.py:8, 20) are PIL's; images are modelled as their three channels.
- video-manipulation/ripple_shift.py, video-manipulation/video_compression.py, printing/print_tile.py and 3d-mesh/create_text_mesh.py are not part of this model; they are display loops or thin wrappers.
- The `add_airflow_holes` loop is split into `Airflow.AddAirflowHoles`, which builds the grid, and `Airflow.CutHoles`, which runs the subtraction loop.

## Findings

| source | as written | input that shows it | evidently intended | confidence | as-written member | corrected member |
|---|---|---|---|---|---|---|
| printing/create_airflow_box.py:368-369 | For wall type `full`, the summary names `<prefix>_walls.stl`, but `main` always saves two wall pieces, `_walls_l1.stl` and `_walls_l2.stl` (lines 359-360). | the default answers: prefix `airflow`, wall type `full` | the summary lists the files actually saved | high, not executed | AirflowBox.ReportedFilesAsWritten, AirflowBox.ReportedFileNeverSaved | AirflowBox.ReportedFiles, AirflowBox.ReportedFilesAreSaved |

