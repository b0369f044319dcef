# Chess video post-processing: a Dafny model of its core logic

The system post-processes a recorded chess game. It has two halves:

- One half looks for hand motion inside a quadrilateral region of the board video.
- The other builds a single ffmpeg command that composites a rendered chess animation onto the
  recording, one overlay step per move, at times aligned with the moves.

This project models the pure and imperative logic between the OpenCV, ffmpeg and Tauri calls,
and proves what that logic promises:

- `overlay_command.dfy` (module `OverlayBuilder`) models `get_multiple_overlay_command`.
  - A specification function `OverlayCommand` gives the typed command: its inputs, its filter
    graph of `Chain` and `Overlay` parts, and the mapped label. `FilterGraph` defines these types.
  - A method `BuildOverlayCommand` runs the two loops of the source. It is proved to produce
    exactly that command. `BuildStepFilters` builds one step's filter list as the loop body does.
  - The offset and the three file names are optional, as in the source. They default to no
    offset (position (0, 0)), `background.mp4`, `chess-animation.mp4` and `output.mp4`.
  - Lemmas state validation, the input layout, freeze padding, the threading of stream labels,
    a connectivity predicate for the graph, and the count of `;` separators.
  - The same builder appears a second time at `py-util/overlay.py:6-99`, line for line, so the
    model covers both copies.
- `filter_graph.dfy` (module `FilterGraph`) defines the typed filter graph and its textual form.
  Number formatting is a parameter `num`.
- `overlay_plan.dfy` (module `OverlayPlan`) models `process_overlay_data`. Rounding to three
  decimals is a parameter `round3`.
- `motion.dfy` (module `Motion`) models the segment-tracking state machine of
  `detect_motion_segments`.
  - The detector is reduced to one boolean per frame.
  - A method with the source's loop is proved equal to `Segments`. That function is defined
    from the maximal runs of motion frames.
  - The region corners go through `order_points` before the loop. With fewer than four it
    raises IndexError, and the model returns `None`.
  - Rounding to two decimals is a parameter `round2`.
- `corners.dfy` (module `Corners`) models `order_points`. The source has two identical copies.
  Python's stable `sorted` is modelled as a stable insertion sort `SortBy`.
- `board.dfy` (module `Board`) models three parts of the chessboard segmenter:
  - the corner-count check of `get_matrix`;
  - the destination square;
  - the nested loops of `chessboard_segmentation`.

  The perspective solve and the inverse transform are parameters.
- `shell.dfy` (module `Shell`) models the script-name check, single-quote escaping and
  command assembly of `run_python_script`.
  - A small model of bash word splitting (`Words`) states what the quoting achieves: the
    arguments are read back exactly.
  - Words are separated by spaces and tabs. A backslash before a newline is a line
    continuation and is removed.
  - `Words` gives `None` for text holding an unquoted newline, operator, expansion, glob or
    double quote (``| & ; ( ) < > $ ` " * ? [ ] # ~ { } !``). So a command counts as read only
    when bash would take it as plain words.
  - Of these, the newline and ``| & ; ( ) < > ` "`` (`IsOperator`) stop bash from reading a
    word literally wherever they stand. The others (`IsSpecial` only) are literal in some
    positions, so for them `None` only means "outside the modelled fragment".
- `text.dfy` holds string helpers (`Join`, `Count`, decimal digits) and `wrappers.dfy` holds
  `Option` and `Result`.

Lemmas about times require exact rounding (`round2` or `round3` is the identity). The models
themselves keep rounding abstract.

## Behaviour of the code

- A video that cannot be opened gives `[]`, with no exception (py-util/motion.py:82-84).
- A video with no frames also gives `[]`: the loop ends at the first failed read
  (py-util/motion.py:113-116).
- The detector neither pads nor merges intervals. Each motion run becomes one segment, rounded to
  two decimals (py-util/motion.py:141-153).
- The planner returns `None` for an empty timestamp list, with no exception
  (py-util/export.py:226-228).
- The overlay gate is ffmpeg's `between(t, start, end)`, which includes both ends
  (py-util/export.py:146). The model keeps the two bounds and does not interpret `between`.

## Model

| member | source | states |
|---|---|---|
| OverlayBuilder.OverlayCommand | py-util/export.py:72-165 | The command is built exactly when the segment counts match and the offset is valid, and it writes to the given output file; its layout is stated by the lemmas below |
| OverlayBuilder.BuildOverlayCommand | py-util/export.py:72-165 | The imperative builder (validation, input loop, filter loop threading the last label), with the source's default offset and file names, returns exactly `OverlayCommand`, including both error results |
| OverlayBuilder.BuildStepFilters | py-util/export.py:129-137 | The loop body's filter list is exactly `StepFilters`: a clone-pad when the freeze exceeds 0.001 s, then the shift to the window start (see FreezePadding) |
| OverlayBuilder.OverlayCommandLine | py-util/export.py:153-165 | The command string exists exactly when the typed command does; it starts with `ffmpeg.exe ` and ends by copying the audio into the output file |
| OverlayBuilder.DefaultArguments | py-util/export.py:72-111 | With the default arguments, equal segment counts always give a command: background.mp4 as the first input, one chess-animation.mp4 input per segment, every overlay at (0, 0), output.mp4 as output |
| FilterGraph.CommandText | py-util/export.py:155-163 | The text starts with `ffmpeg.exe ` and ends with `-map 0:a? -c:a copy -y` and the output file |
| OverlayBuilder.Validation | py-util/export.py:92-102 | Mismatched segment counts give `SegmentCountMismatch` whatever the offset; with equal counts, `MalformedOffset` exactly when the offset is neither absent nor a two-element list or tuple; a command is built exactly when both checks pass |
| OverlayBuilder.InputsLayout | py-util/export.py:104-111 | N + 1 inputs: the whole background first, then for each overlay segment in order one trimmed input starting at its start and lasting end - start |
| OverlayBuilder.OverlayInputsAt | py-util/export.py:106-109 | The overlay inputs have one entry per segment, entry k built from segment k |
| OverlayBuilder.FreezePadding | py-util/export.py:122-140 | Step k's chain holds a clone-pad exactly when the background window exceeds the overlay window by more than 0.001 s; every pad lasts exactly that difference; the last filter is always the shift by the background start, with only pads before it |
| OverlayBuilder.FreezeExample | py-util/export.py:129-137 | A 0.2 s overlay window against the 4 s background window [1, 5] gives a 3.8 s pad and a shift to 1 s |
| OverlayBuilder.Chaining | py-util/export.py:113-159 | 2N parts; part 2k reads input k+1 into `processed_overlay_{k+1}`; part 2k+1 overlays it onto `[0:v]` (k = 0) or `v_out_k`, at the one fixed (x, y), enabled during background window k, into `v_out_{k+1}`; the mapped label is the last composite, `[0:v]` when N = 0 |
| OverlayBuilder.StepsAt | py-util/export.py:118-151 | Loop steps from any index: part 2k is that step's chain and part 2k+1 its overlay onto the previous composite |
| OverlayBuilder.GraphConnected | py-util/export.py:113-159 | The graph is well formed: every label read is an input stream or produced earlier; no label is produced twice or shadows an input; every produced label but the last is read later; every input is used; the mapped video is the last sink |
| OverlayBuilder.GraphSeparators | py-util/export.py:153 | The serialised graph is empty for N = 0 and otherwise holds exactly 2N - 1 `;`, one between each pair of neighbouring parts, given numbers are formatted without `;` |
| FilterGraph.PartTextAvoidsSemicolon | py-util/export.py:139-149 | The text of a chain or an overlay part never contains `;` when number formatting never produces one |
| FilterGraph.GraphTextSeparators | py-util/export.py:153 | Joining n semicolon-free part texts with `;` gives n - 1 separators |
| Text.JoinSeparatorCount | py-util/export.py:153 | Joining n parts free of c with the one-character separator c yields n - 1 occurrences of c |
| Text.JoinAvoids | py-util/export.py:140 | A character absent from every part and from the separator is absent from the join |
| Text.Count | src-tauri/src/main.rs:22 | The count of a character is at most the length and is zero exactly when the character is absent |
| OverlayPlan.ProcessOverlayData | py-util/export.py:220-251 | No plan exactly when there are no timestamps; a plan has as many overlay as background windows and a two-element offset, so the builder's checks pass (see PlanShape, PlanIsBuildable) |
| OverlayPlan.PlanShape | py-util/export.py:220-248 | A plan exists exactly when there is a timestamp; it then has one overlay and one background window per timestamp and the offset [x_offset, y_offset], each defaulting to 0 |
| OverlayPlan.OverlayTiling | py-util/export.py:230 | Overlay window i is [round(i·tpm), round((i+1)·tpm)], and each window ends where the next begins, whatever the rounding |
| OverlayPlan.BackgroundWindows | py-util/export.py:233-237 | Window k ≥ 1 starts at round(ts[k] - tpm); window k ends at ts[k+1]; the last ends at the end time 7; the first start is round(round(ts[0] - tpm) + tpm) |
| OverlayPlan.FirstWindowStart | py-util/export.py:237 | Under exact rounding the first background window starts at the first timestamp |
| OverlayPlan.PlannedFreeze | py-util/export.py:230-237 | Under exact rounding each overlay window lasts tpm, and the freeze the builder pads step k with is the gap to the next timestamp (or 7), less tpm for k = 0 |
| OverlayPlan.BackgroundWindowsNonEmpty | py-util/export.py:233-237 | For increasing timestamps below 7 and tpm ≥ 0, under exact rounding, every background window has start < end |
| OverlayPlan.PlanIsBuildable | py-util/export.py:236-248 | Every plan passes the builder's validation; the command has 2N parts, and every overlay step uses the planned x and y offsets |
| OverlayPlan.PlanExample | py-util/export.py:222-237 | tpm 0.2, timestamps [1, 2, 3]: overlay windows [0, 0.2], [0.2, 0.4], [0.4, 0.6]; background windows [1, 2], [1.8, 3], [2.8, 7]; offset [0, 0] |
| Corners.SortBy | py-util/motion.py:10 | Sorting keeps the length (its permutation and stability are in SortByIsStableSort) |
| Corners.SortByIsStableSort | py-util/motion.py:10 | `SortBy` permutes its input, orders it by the key, and keeps the input order among elements with equal keys (Python's stable `sorted`) |
| Corners.InsertPermutes | py-util/motion.py:10 | Insertion adds exactly the inserted point |
| Corners.InsertSorted | py-util/motion.py:10 | Insertion into a sorted sequence keeps it sorted |
| Corners.InsertStable | py-util/motion.py:10 | Insertion places the new point before equal-key elements that came later in the input |
| Corners.SortTwo | py-util/motion.py:12-13 | A pair comes out in key order, and in input order on a tie |
| Corners.OrderPoints | py-util/motion.py:7-15 | A result exactly when there are at least four points, and then exactly four corners (see OrderPointsSpec) |
| Corners.OrderPointsSpec | py-util/motion.py:7-15 | None (the source's IndexError) exactly for fewer than 4 points. Otherwise the result is 4 of the input points, a permutation when there are exactly 4. The first two are no lower than the last two, TL is left of TR, and BL is left of BR. Ties in x keep the upper point first |
| Corners.OrderPointsPicks | py-util/segmentation.py:114-125 | The four corners are drawn from the input points, and are all of them when there are four |
| Corners.OrderPointsPlaces | py-util/segmentation.py:116-125 | Upper pair above lower pair, left before right in each, ties in the order of the stable sorts |
| Corners.OrderPointsIdempotent | py-util/motion.py:7-15 | For every four-point input, ties included, ordering an ordered quadrilateral again changes nothing |
| Corners.PairCanonical | py-util/segmentation.py:120-122 | A pair in left-to-right order comes back in that order from the y-sort and x-sort, whichever way it went in |
| Motion.EffectiveFps | py-util/motion.py:86-89 | The frame rate is never 0: a reported rate of 0 becomes 30, any other is kept |
| Motion.Runs | py-util/motion.py:141-149 | Runs lie within the frames seen and are non-empty; motion is in progress after the last frame exactly when that frame shows motion |
| Motion.Segments | py-util/motion.py:105-157 | One segment per idle-to-motion edge of the frames (their times are in SegmentTimes) |
| Motion.DetectMotionSegments | py-util/motion.py:80-157 | An unopenable video gives []; fewer than four region corners give None, the IndexError of `order_points` at line 97; otherwise the state-machine loop over 1-based frame numbers returns exactly `Segments(motion, fps, total_frames)`, with fps defaulted |
| Motion.TrackedStep | py-util/motion.py:142-149 | Each transition of the two-state machine keeps its flag, start time and emitted segments in step with the runs of the frames seen |
| Motion.TrackedEnd | py-util/motion.py:151-153 | Closing a run still open at the end at total_frames / fps completes the segments |
| Motion.RunsAreMaximalRuns | py-util/motion.py:142-149 | The runs are the maximal runs of motion frames: ordered and separated by still frames, all motion, bounded by still frames, and covering every motion frame |
| Motion.RunsCount | py-util/motion.py:142-144 | There is one run per idle-to-motion edge, starting idle |
| Motion.SegmentTimes | py-util/motion.py:118-153 | One segment per idle-to-motion edge; segment i starts at (first motion frame number) / fps and ends at the closing still frame's time, or at total_frames / fps when motion lasts to the end |
| Motion.SegmentAt | py-util/motion.py:144-153 | Segment i in terms of run i, with the run inside the frames read |
| Motion.SegmentsDisjoint | py-util/motion.py:141-153 | The segments are increasing and pairwise disjoint: each ends strictly before the next starts |
| Motion.SegmentsNonEmpty | py-util/motion.py:146-153 | Every segment closed by a still frame has start < end; when total_frames covers the frames read, even the final one has start ≤ end |
| Motion.NoMotionNoSegments | py-util/motion.py:105-153 | Frames without motion yield no segment |
| Motion.OnlyLastOpen | py-util/motion.py:151-153 | Only the last run can still be open at the end of the video |
| Board.DestinationPoints | py-util/segmentation.py:13-22 | The destination is the axis-aligned square of side 8S with top-left (0, 0), listed TL, TR, BR, BL |
| Board.SquareCorners | py-util/segmentation.py:58-68 | Square (row, col) is the axis-aligned square of side S with top-left (col·S, row·S), listed TL, TR, BR, BL |
| Board.GetMatrix | py-util/segmentation.py:8-25 | "You must select exactly 4 corners first" exactly when the corners are missing or not four; otherwise the solve of the corners against the destination square |
| Board.ChessboardSegmentation | py-util/segmentation.py:50-77 | The nested row/column loops produce four lists, each holding the mapped corner of every square in row-major order |
| Board.CollectedStep | py-util/segmentation.py:71-77 | Appending one square's four mapped corners extends each list by exactly that square |
| Board.SegmentationLayout | py-util/segmentation.py:58-77 | Each of the four lists has 64 entries; entry 8·row + col is the mapped corner of square (row, col): top-left (col·S, row·S), top-right ((col+1)·S, row·S), bottom-right ((col+1)·S, (row+1)·S), bottom-left (col·S, (row+1)·S) |
| Board.CornerList | py-util/segmentation.py:71-77 | A list has one entry per square so far, and later squares only append: each shorter list is a prefix |
| Board.NeighboursShareCorners | py-util/segmentation.py:60-68 | TR of (r, c) is TL of (r, c+1); BL of (r, c) is TL of (r+1, c); BR is TL of (r+1, c+1) and BL of (r, c+1) |
| Board.CornersOnBoard | py-util/segmentation.py:16-22 | Every square corner lies in [0, 8S]²; the outer corners of the corner squares are the destination points |
| Board.SquaresTileBoard | py-util/segmentation.py:58-68 | Every board point lies in exactly one square, the one in row y / S and column x / S |
| Board.RectangleIsCanonical | py-util/segmentation.py:114-125 | An axis-aligned rectangle listed TL, TR, BR, BL is already in `order_points` order |
| Board.LayoutsAreCanonical | py-util/segmentation.py:13-22 | The destination points and the corners of every square are in canonical corner order |
| Shell.PythonCommand | src-tauri/src/main.rs:11-30 | Err("Invalid script name.") exactly when the name does not end in ".py" or contains '/' or '\\'; otherwise the command `cd '<wsl path>' && pipenv run python <script> <quoted args>` |
| Shell.RejectedNames | src-tauri/src/main.rs:15-17 | A name not ending in ".py", or one with '/' or '\\', is rejected; a valid one gets exactly the command |
| Shell.QuoteArgumentLength | src-tauri/src/main.rs:22 | A quoted argument is len(arg) + 2 + 3·(number of quotes) long |
| Shell.EscapeQuotesLength | src-tauri/src/main.rs:22 | Escaping adds three characters per quote |
| Shell.EscapeQuotesConcat | src-tauri/src/main.rs:22 | Escaping distributes over concatenation |
| Shell.EscapeQuotesPlain | src-tauri/src/main.rs:22 | Text without a quote is left unchanged by escaping |
| Shell.EscapeQuote | src-tauri/src/main.rs:22 | A lone quote becomes `'\''` |
| Shell.EscapedBody | src-tauri/src/main.rs:22 | Bash reading an escaped body inside quotes, up to the closing quote, appends exactly the original text to the word |
| Shell.QuotedWord | src-tauri/src/main.rs:22 | Bash reads a quoted argument back as exactly that argument |
| Shell.QuotedArgumentsWords | src-tauri/src/main.rs:20-24 | The space-joined quoted arguments are read as exactly those words, in order |
| Shell.ArgumentsRoundTrip | src-tauri/src/main.rs:20-24 | Bash word splitting of the quoted arguments gives back the original arguments, whatever characters they contain |
| Shell.QuoteArgument | src-tauri/src/main.rs:22 | A quoted argument opens and closes with a single quote (its reading is in QuotedWord) |
| Shell.QuotedArguments | src-tauri/src/main.rs:20-24 | The joined text is empty exactly when there are no arguments, and otherwise starts with a quote (its reading is in ArgumentsRoundTrip) |
| Shell.CommandWords | src-tauri/src/main.rs:26-30 | The accepted command starts with the fixed prefix. For a script name of plain characters only (no blank, quote, backslash, operator or expansion), bash reads the rest as the script name followed by the original arguments |
| Shell.OperatorInName | src-tauri/src/main.rs:15-30 | For every accepted name whose second character is an operator (newline, ``; & \| < > ( ) ` "``), the command starts with the prefix and the model reads no words from the rest: bash ends the command, redirects, starts a command substitution or starts quoting at that character, so the name is not passed as one literal word |
| Shell.InjectedScriptName | src-tauri/src/main.rs:15-30 | "a;reboot;b.py", and the same name with newlines for the `;`, pass the name check, and their command with argument "x" is not read as the script name and the arguments: the separator ends the command |
| Shell.QuotedPythonCommand | src-tauri/src/main.rs:15-30 | The command with the script name quoted like the arguments: the same error exactly for a rejected name |
| Shell.QuotedCommandWords | src-tauri/src/main.rs:15-30 | For every name the check accepts, the quoted command starts with the prefix and bash reads the rest as exactly the script name followed by the arguments |

## Left out

- Video I/O, the MOG2 background subtractor, masking, threshold, dilation and contour areas are
  reduced to one boolean per frame and the opened, frame-rate and frame-count values. The ROI
  mask drawing is not modelled.
- The perspective solve, its inverse and the integer truncation of transformed points are
  parameters (`solve`, `toImage`).
- `round(·, 2)`, `round(·, 3)` and Python's float formatting are parameters. The models keep
  them abstract.
- Floating-point times are modelled as exact reals, so float noise near the 0.001 freeze
  threshold is not modelled.
- Motion.SegmentTimes, Motion.SegmentsDisjoint, Motion.SegmentsNonEmpty, Motion.SegmentAt:
  proved only for exact rounding (`round2` the identity). Rounding can merge a run's two
  bounds.
- OverlayPlan.FirstWindowStart, OverlayPlan.PlannedFreeze, OverlayPlan.BackgroundWindowsNonEmpty,
  OverlayPlan.PlanExample: proved only for exact rounding (`round3` the identity).
- The exceptions that `process_overlay_data` catches are not modelled. The manifest is typed,
  so only missing keys (defaults) and an empty timestamp list (None) arise.
- The timestamps copy in `process_overlay_data` needs no modelling: values cannot alias, so
  the caller's list is unchanged by construction.
- Corner coordinates are integers, as the clicked pixel points are.
- `order_points` with more than four points keeps the two upper points and the two leftmost of
  the rest; the model states that case and does not reject it.
- Shell.CommandWords: the script name is inserted unquoted. The reading is only stated for
  names of plain characters, which the name check does not demand (see Findings).
- The bash model covers blanks (space, tab), single quotes, backslash escapes and line
  continuations. Newlines, operators, expansions, globs and double quotes outside single
  quotes are not read: `Words` gives `None` for them.
- Segments are modelled as records of a start and an end time. The source unpacks each segment
  as a pair (py-util/export.py:107 and 118-120), and a segment that is not a pair raises
  ValueError there; that error is not modelled.
- Offsets are modelled as integers, as the manifest's pixel offsets are. The builder puts any
  value of a two-element list into the command text; non-integer values are not modelled.
- Shell.EscapeQuotes has no contract of its own. Its properties are the EscapeQuotes lemmas
  and EscapedBody.
- `execute_ffmpeg_command`, the rendering call, `visualize_roi`, `mark_and_label_points`,
  printing, JSON output, `load_export_data` and `main` are process and file I/O, so they are not
  modelled.
- The WSL process launch and its Ok/Err mapping (`src-tauri/src/main.rs:32-53`) are not
  modelled. Neither is the Tauri setup or `src-tauri/src/hello.rs` (threads, channels and
  timeouts).

## Findings

| source | as written | input that shows it | evidently intended | confidence | as-written member | corrected member |
|---|---|---|---|---|---|---|
| src-tauri/src/main.rs:26-30 | The script name goes into the shell command unquoted, after a check that only demands ".py" at the end and no '/' or '\\', so `;`, `&`, `\|`, `$` and the like pass | script "a;reboot;b.py" with argument "x" | The script name reaches python as one word, like the quoted arguments | not executed | Shell.InjectedScriptName | Shell.QuotedCommandWords |
| src-tauri/src/main.rs:15-30 | The name check does not reject newlines either, and an unquoted newline ends the command as `;` does | script "a\nreboot\nb.py" (newlines between the parts) with argument "x" | The script name reaches python as one word, like the quoted arguments | not executed | Shell.InjectedScriptName | Shell.QuotedCommandWords |
