# video-clip-tool, modelled in Dafny

video-clip-tool is a browser tool for cutting clips out of a video. The user
picks a trim range on two sliders, optionally marks crop regions, tags the
clip with categories and writes a memo. The tool then shows a shell script of
`ffmpeg` commands that:

- cuts the clip;
- extracts its audio;
- builds a blank canvas;
- crops each region, scales it and overlays it onto the canvas.

This project models the tool's domain logic. Each part keeps the form it has
in the source.

- **Strings** (`Strings.dfy`): `split`/`join` on a one-character separator,
  and the decimal rendering of whole numbers. These are the JavaScript
  operations the rest relies on. Each is proved against its inverse:
  - splitting and joining again gives the text back;
  - reading a rendered integer gives the integer back: its digits for a
    number that is not negative, and a minus sign followed by the digits of
    its magnitude for a negative one.
- **Time codes** (`FormatTime.dfy`): `formatText`, `convertTimeToText`,
  `convertTimeToShortText` and `convertMilliSecondsTimeToText`.
  - Times are `real` seconds, and `Math.floor` is `.Floor`.
  - Each format is proved against a parser of that format, for times
    `t >= 0`. The `H:MM:SS` and `M:SS` texts read back as the whole seconds
    of the time, `floor(t)`. The millisecond text reads back as the time
    truncated to the millisecond: a value `v` with `v <= t < v + 0.001`.
  - The fields are stated too: unpadded hours with two-digit minutes and
    seconds in `H:MM:SS`, each field reading back as its part of the time,
    and unpadded minutes with two-digit seconds in `M:SS`.
- **The command script** (`CutCommand.dfy`): `convertTimeToCutCommand` as a
  pure function to the script text. It takes the source's six parameters,
  plus the environment value and the number printer (see "## Left out").
  - It is proved equal to the join of an explicit list of script lines.
  - Lemmas say what sits at every position of that list: the header, one
    crop command per crop, two merge lines per crop, and the memo comments.
  - The merge chain reads `base.mp4` first and then the previous merge's
    output.
  - Every output lies under `{root}/{movieName}`.
  - The memo comments give the memo back.
  - The script splits back into its lines when its inputs have no line breaks.
- **The category reducer** (`VideoCutEditor.dfy`): `categoryListReducer` is a
  method.
  - Adding a tag builds an array and sorts it in place: an insertion sort,
    proved to give a sorted permutation of its input.
  - That result equals a reference sort on sequences, because two sorted
    permutations of one list are equal.
  - Removal, membership flipping, "nothing else changes" and "toggling twice
    is the identity" are proved about the resulting string.
  - The same file models the automatic clip URL and the selected-tag test.
- **The sliders** (`SliderMarks.dfy`, `VideoClipSlider.dfy`,
  `VideoStartPositionSlider.dfy`):
  - the step-table lookup;
  - the mark-pushing `for` loop of `calculateTrimMarks` and `calculateMarks`;
  - the two change handlers;
  - the trim slider's bounds.

  Both mark generators run the same loop, written once as the method
  `SliderMarks.StepMarks`. That method is proved against the predicate
  `IsStepMarks`: mark `k` is at `origin + k * step`, every mark is below the
  limit, and the next multiple is not.

## Model

| member | source | states |
|---|---|---|
| Strings.JoinSplit | src/lib/CutCommand.tsx:34 | splitting a text on a separator and joining the parts with the same separator gives the text back |
| Strings.SplitJoin | src/components/VideoCutEditor.tsx:18-24 | joining separator-free parts and splitting the result gives the same parts back |
| Strings.SplitHasNoSeparator | src/components/VideoCutEditor.tsx:18 | no part produced by `split` contains the separator |
| Strings.SplitFirstIsPrefix | src/lib/CutCommand.tsx:31 | the first part of a split is a separator-free prefix that is followed by the separator or ends the text |
| Strings.SplitLastIsSuffix | src/lib/CutCommand.tsx:31 | the last part of a split is a separator-free suffix that is preceded by the separator or is the whole text |
| Strings.JoinFlatten | src/lib/CutCommand.tsx:54-71 | when every group holds at least one line, joining lines group by group and then joining the joins gives the same text as joining all lines at once |
| Strings.IntToString | src/lib/FormatTime.tsx:7 | the decimal text of an integer is non-empty, is made of a minus sign and digits, and is all digits exactly when the number is not negative; the number it stands for is stated by `IntToStringReadsBack` |
| Strings.IntToStringReadsBack | src/lib/CutCommand.tsx:41 | the decimal text of an integer reads back as it: the digits of a non-negative number parse as that number, and a negative number is a minus sign followed by the digits of its magnitude (so negative rectangle offsets print as the numbers they are) |
| Strings.Split | src/lib/CutCommand.tsx:34 | `split` on one character: the maximal separator-free runs, at least one; its contract is stated by `JoinSplit`, `SplitJoin`, `SplitHasNoSeparator`, `SplitFirstIsPrefix` and `SplitLastIsSuffix` |
| Strings.Join | src/lib/CutCommand.tsx:60-71 | `join` with one character between consecutive parts; its contract is stated by `JoinSplit`, `SplitJoin` and `JoinFlatten` |
| Strings.NatToString | src/lib/FormatTime.tsx:7 | the decimal text of a natural number is non-empty, all digits, with no leading zero |
| Strings.ParseNatToString | src/lib/FormatTime.tsx:7 | reading the decimal text of a natural number gives the number back |
| Strings.ParseNatLeadingZeros | src/lib/FormatTime.tsx:7 | zero padding in front of digits does not change the number they read as |
| FormatTime.FormatText | src/lib/FormatTime.tsx:6-8 | the padded text is as long as the requested length or the number's digits, whichever is longer; it ends with the digits and has only zeros before them, so it is never cut short |
| FormatTime.PaddedReadsBack | src/lib/FormatTime.tsx:6-8 | a padded natural number is a numeral that reads back as the number |
| FormatTime.Decompose | src/lib/FormatTime.tsx:32-34 | minutes and seconds are in 0..59, hours*3600 + minutes*60 + seconds equals the floor of the time, and hours are non-negative exactly when the time is |
| FormatTime.Milliseconds | src/lib/FormatTime.tsx:47 | the millisecond field is in 0..999, and the whole seconds plus that many thousandths are at most the time and within a millisecond of it |
| FormatTime.TextReadsBack | src/lib/FormatTime.tsx:31-36 | `convertTimeToText` has three `:`-separated fields: the unpadded decimal hours, then the minutes and the seconds as two digits each, each field reading back as that part of the time; the whole parses back as the floor of the time |
| FormatTime.ClockTextReadsBack | src/lib/FormatTime.tsx:35 | an `H:MM:SS` text of in-range fields has three fields, the unpadded decimal hours and the two-digit minutes and seconds, each reading back as its part, has no dot, and parses back as its number of seconds |
| FormatTime.ShortTextReadsBack | src/lib/FormatTime.tsx:15-24 | `convertTimeToShortText` equals `convertTimeToText` when there are hours; otherwise it has two fields, the minutes unpadded (their plain decimal text) and the seconds two digits wide; it parses back as the floor of the time either way |
| FormatTime.MinutesTextReadsBack | src/lib/FormatTime.tsx:22 | the `M:SS` text of a time under an hour splits into the unpadded decimal minutes and two-digit seconds, and parses back as its number of seconds |
| FormatTime.ConvertTimeToText | src/lib/FormatTime.tsx:31-36 | `convertTimeToText`; its contract is stated by `TextReadsBack` (three fields: unpadded hours, two-digit minutes and two-digit seconds, each reading back as its part; the whole reading back as the floor of the time) and `TextOfZero` |
| FormatTime.ConvertTimeToShortText | src/lib/FormatTime.tsx:15-24 | `convertTimeToShortText`; its contract is stated by `ShortTextReadsBack`, `ShortTextUnderAnHour` and `ShortTextOverAnHour` |
| FormatTime.ConvertMilliSecondsTimeToText | src/lib/FormatTime.tsx:43-49 | `convertMilliSecondsTimeToText`; its contract is stated by `PreciseTextReadsBack` (reading back as the time truncated to the millisecond), `PreciseTextCharacters` and `PreciseTextExample` |
| FormatTime.PreciseTextReadsBack | src/lib/FormatTime.tsx:43-49 | `convertMilliSecondsTimeToText` is `convertTimeToText`, a dot and three millisecond digits, and parses back as a value v with v <= t < v + 0.001 |
| FormatTime.PreciseFieldsReadBack | src/lib/FormatTime.tsx:48 | an `H:MM:SS.mmm` text of in-range fields parses back as its seconds plus the milliseconds in thousandths |
| FormatTime.PreciseTextCharacters | src/lib/FormatTime.tsx:48 | the millisecond text holds only digits, minus signs, colons and a dot, and so no line break |
| FormatTime.TextOfZero | src/lib/FormatTime.tsx:31-36 | time 0 is `0:00:00` |
| FormatTime.ShortTextUnderAnHour | src/lib/FormatTime.tsx:15-24 | 65 seconds is `1:05`, with minutes unpadded |
| FormatTime.ShortTextOverAnHour | src/lib/FormatTime.tsx:15-24 | 3605 seconds is `1:00:05` |
| FormatTime.PreciseTextExample | src/lib/FormatTime.tsx:43-49 | 3661.5 seconds is `1:01:01.500` |
| SliderMarks.FindRow | src/components/VideoClipSlider.tsx:24 | the lookup finds the first row whose bound exceeds the duration: that row's bound does and no earlier row's does; when nothing is found, no row's bound does |
| SliderMarks.StepFor | src/components/VideoClipSlider.tsx:24 | the step chosen for a table of positive steps is positive |
| SliderMarks.StepGrowsWithDuration | src/components/VideoClipSlider.tsx:14-24 | for a table whose bounds and steps grow and stay within an hour, a longer duration never gets a finer step |
| SliderMarks.StepMarks | src/components/VideoClipSlider.tsx:25-28 | the loop's marks are exactly origin + k*step for k = 0, 1, … while below the limit, each labelled with its offset from the origin |
| SliderMarks.StepMarksAreUnique | src/components/VideoClipSlider.tsx:25-28 | the mark list the loop builds is the only one meeting that description |
| SliderMarks.StepMarksIncrease | src/components/VideoClipSlider.tsx:25-28 | marks strictly increase when the step is positive |
| SliderMarks.FirstStepMark | src/components/VideoStartPositionSlider.tsx:24-25 | there is a mark exactly when the origin is below the limit, and the first mark is at the origin with the label of offset 0 |
| SliderMarks.StepMarkAt | src/components/VideoClipSlider.tsx:26-27 | every mark's label is the label of its offset from the origin, and every mark lies between the origin and the limit |
| VideoClipSlider.TrimStep | src/components/VideoClipSlider.tsx:13-24 | the trim marks are at least 5 seconds apart |
| VideoClipSlider.TrimStepExample | src/components/VideoClipSlider.tsx:14-24 | a 45-second clip gets a mark every 10 seconds |
| VideoClipSlider.TrimStepGrows | src/components/VideoClipSlider.tsx:14-24 | a longer clip never gets a finer step |
| VideoClipSlider.CalculateTrimMarks | src/components/VideoClipSlider.tsx:12-30 | the marks run from the trim start in steps of the trim step while below the end plus 20 seconds, labelled with the short text of their offset |
| VideoClipSlider.FirstTrimMark | src/components/VideoClipSlider.tsx:25-27 | the first trim mark is at the start time with the label `0:00` |
| VideoClipSlider.TrimMarkAt | src/components/VideoClipSlider.tsx:26-27 | each trim mark is labelled with the short text of its offset from the start, and lies between the start and the end plus 20 seconds |
| VideoClipSlider.TrimMarksIncrease | src/components/VideoClipSlider.tsx:25-28 | trim marks strictly increase |
| VideoClipSlider.HandleChange | src/components/VideoClipSlider.tsx:39-56 | a single value is ignored; a pair is reported in ascending order, as the same two values, with `isStart` exactly when the active thumb is 0 |
| VideoClipSlider.HandleChangeIgnoresOrder | src/components/VideoClipSlider.tsx:51-55 | swapping the two thumb values does not change what is reported |
| VideoClipSlider.SliderMin | src/components/VideoClipSlider.tsx:64 | the lower end is the larger of start minus 5 and 0, so never negative |
| VideoClipSlider.SliderMax | src/components/VideoClipSlider.tsx:65 | the upper end is the smaller of end plus 20 and the video's duration |
| VideoClipSlider.RangeInsideSlider | src/components/VideoClipSlider.tsx:64-65 | a trim range inside the video lies between the slider's ends |
| VideoStartPositionSlider.PositionStep | src/components/VideoStartPositionSlider.tsx:14-23 | the position marks are at least 10 seconds apart |
| VideoStartPositionSlider.PositionStepExample | src/components/VideoStartPositionSlider.tsx:14-23 | a 2-minute video gets a mark every minute |
| VideoStartPositionSlider.PositionStepGrows | src/components/VideoStartPositionSlider.tsx:14-23 | a longer video never gets a finer step |
| VideoStartPositionSlider.CalculateMarks | src/components/VideoStartPositionSlider.tsx:13-28 | the marks are 0, step, 2*step, … while below the duration, each labelled with `convertTimeToText` of its value |
| VideoStartPositionSlider.MarksShowTheirTime | src/components/VideoStartPositionSlider.tsx:25 | each mark's label is the text of its own value, which lies in [0, duration) |
| VideoStartPositionSlider.NoMarksWithoutDuration | src/components/VideoStartPositionSlider.tsx:24 | there are no marks exactly when the duration is at most 0, which covers the -1 placeholder |
| VideoStartPositionSlider.HandleChangeRange | src/components/VideoStartPositionSlider.tsx:43-54 | a pair is ignored and a single value is passed on unchanged |
| VideoCutEditor.BelowTotal | src/components/VideoCutEditor.tsx:23 | any two strings are ordered one way or the other by the default sort order |
| VideoCutEditor.BelowTransitive | src/components/VideoCutEditor.tsx:23 | the default sort order is transitive |
| VideoCutEditor.BelowAntisymmetric | src/components/VideoCutEditor.tsx:23 | two strings each ordered before the other are equal |
| VideoCutEditor.SortInPlace | src/components/VideoCutEditor.tsx:23 | sorting the array in place leaves it sorted and a permutation of what it held |
| VideoCutEditor.SortedListIsSortedPermutation | src/components/VideoCutEditor.tsx:23 | the reference sort gives a sorted permutation of its input |
| VideoCutEditor.SortedPermutationsAgree | src/components/VideoCutEditor.tsx:23 | two sorted lists holding the same elements are the same list, so the sort's result does not depend on its algorithm |
| VideoCutEditor.InsertKeepsSorted | src/components/VideoCutEditor.tsx:22-23 | inserting into a sorted list keeps it sorted |
| VideoCutEditor.InsertAddsOne | src/components/VideoCutEditor.tsx:22 | inserting adds exactly the one element |
| VideoCutEditor.Entries | src/components/VideoCutEditor.tsx:18 | the reducer's category list: the comma-separated parts with empty ones dropped; its contract is stated by `EntriesAreClean` and `EntriesOfJoin` |
| VideoCutEditor.Toggle | src/components/VideoCutEditor.tsx:14-25 | the `set` action's result; its contract is stated by `ToggleRemoves`, `ToggleAdds`, `ToggleFlips`, `ToggleKeepsOthers` and `ToggleTwice` |
| VideoCutEditor.IsSelected | src/components/VideoCutEditor.tsx:67 | whether a tag's button shows as selected; its contract is stated by `SelectedIsEntry`, `ToggleFlips` and `InitiallyEmotions` |
| VideoCutEditor.ClipUrl | src/components/VideoCutEditor.tsx:55-56 | the clip URL with its timestamp; its contract is stated by `ClipUrlReadsBack` |
| VideoCutEditor.CategoryListReducer | src/components/VideoCutEditor.tsx:5-28 | `edit` returns the given text whatever the state; `set` returns the toggled category list |
| VideoCutEditor.WithoutCounts | src/components/VideoCutEditor.tsx:20 | the removal filter drops every occurrence of the tag and keeps every other entry as often as it occurred |
| VideoCutEditor.WithoutKeepsSorted | src/components/VideoCutEditor.tsx:20 | filtering a sorted list keeps it sorted |
| VideoCutEditor.EntriesAreClean | src/components/VideoCutEditor.tsx:18 | the entries of a category text are non-empty and hold no comma |
| VideoCutEditor.EntriesOfJoin | src/components/VideoCutEditor.tsx:18-24 | joining non-empty, comma-free entries and reading them back gives the same entries |
| VideoCutEditor.ToggleRemoves | src/components/VideoCutEditor.tsx:19-20 | toggling a present tag removes every occurrence of it and leaves the other entries in their original order, not re-sorted |
| VideoCutEditor.ToggleAdds | src/components/VideoCutEditor.tsx:21-24 | toggling an absent tag gives the old entries plus the tag, sorted |
| VideoCutEditor.ToggleFlips | src/components/VideoCutEditor.tsx:18-25 | for a non-empty, comma-free tag, the tag shows as selected after the toggle exactly when it did not before |
| VideoCutEditor.ToggleKeepsOthers | src/components/VideoCutEditor.tsx:18-25 | every entry other than the toggled tag occurs as often after the toggle as before |
| VideoCutEditor.ToggleTwice | src/components/VideoCutEditor.tsx:18-25 | toggling the same tag twice on a sorted text with no empty entries and at most one copy of the tag gives the text back |
| VideoCutEditor.ToggleTwicePresent | src/components/VideoCutEditor.tsx:18-25 | the same, when the tag starts out present |
| VideoCutEditor.ToggleTwiceAbsent | src/components/VideoCutEditor.tsx:18-25 | the same, when the tag starts out absent |
| VideoCutEditor.SelectedIsEntry | src/components/VideoCutEditor.tsx:67 | a non-empty tag shows as selected exactly when it is one of the reducer's entries |
| VideoCutEditor.InitiallyEmotions | src/components/VideoCutEditor.tsx:41 | in the initial state, `emotions` shows as selected |
| VideoCutEditor.ReservedTagsAreClean | src/components/VideoCutEditor.tsx:62-65 | every reserved tag is non-empty and comma-free, so toggling it flips it |
| VideoCutEditor.ClipUrlUpdate | src/components/VideoCutEditor.tsx:54-60 | the URL is replaced exactly when automatic URLs are on and it differs from the URL for the video at the current start, and it is replaced by that URL |
| VideoCutEditor.ClipUrlSettles | src/components/VideoCutEditor.tsx:54-60 | after one update the next render changes nothing |
| VideoCutEditor.ClipUrlReadsBack | src/components/VideoCutEditor.tsx:55-56 | the clip URL splits at `&` into the watch URL of the video and `t=` with the floor of the start time, which reads back as that floor when the start is not negative |
| CutCommand.OutputTargetDirPath | src/lib/CutCommand.tsx:3 | the output root is the environment value when it is set and non-empty, and `outputs` otherwise; it is never empty |
| CutCommand.MovieName | src/lib/CutCommand.tsx:31 | the movie name; its contract is stated by `MovieNameOfPath`, `MovieNameOfStem` and `MovieNameFallbackExamples` |
| CutCommand.MemoLines | src/lib/CutCommand.tsx:34 | the memo comments; their contract is stated by `MemoBlockReadsBack` and `ScriptMemoLine` |
| CutCommand.ConvertTimeToCutCommand | src/lib/CutCommand.tsx:25-72 | `convertTimeToCutCommand`; its contract is stated by `ScriptIsItsLines`, `ScriptSplitsIntoLines` and the lemmas about `ScriptLines` (`ScriptHeaderLines`, `ScriptShape`, `ScriptCropLine`, `ScriptMergeLines`, `ScriptMemoLine`) |
| CutCommand.MovieNameOfPath | src/lib/CutCommand.tsx:31 | the file name is the slash-free tail of the path; the movie name is never empty and has no slash; it is `movie-name` when the file name is empty or starts with a dot, and otherwise the dot-free prefix of the file name up to its first dot |
| CutCommand.MovieNameOfStem | src/lib/CutCommand.tsx:31 | `dir/stem.rest` gives the movie name `stem`: everything after the first dot is dropped, not just the last extension |
| CutCommand.FileNameAfterSlash | src/lib/CutCommand.tsx:31 | the file name of `dir/file` is `file` whatever the directory |
| CutCommand.MovieNameFallbackExamples | src/lib/CutCommand.tsx:31 | an empty path and a path ending in `/` give `movie-name` |
| CutCommand.OutputsUnderDirectory | src/lib/CutCommand.tsx:32-37 | the output directory is `{root}/{movieName}`; the clip, audio and canvas are `{title}.mp4`, `{title}.wav` and `base.mp4` in it, and every crop, scale and merge file lies in it |
| CutCommand.MergeChain | src/lib/CutCommand.tsx:52-53 | merge 0 draws onto `base.mp4`, merge i+1 onto merge i's output; no merge reads the file it writes, and different merges write different files |
| CutCommand.MergePathInjective | src/lib/CutCommand.tsx:53 | two merges writing the same file are the same merge |
| CutCommand.ScriptIsItsLines | src/lib/CutCommand.tsx:25-72 | the command script is its lines joined by newlines, with the crop and merge segments expanded into one line per crop command and two per merge |
| CutCommand.JobScriptIsItsLines | src/lib/CutCommand.tsx:60-71 | the nine joined segments of the script equal its lines joined |
| CutCommand.SegmentsJoinGroups | src/lib/CutCommand.tsx:60-71 | each of the nine segments is the join of a non-empty group of lines |
| CutCommand.MergeBlockJoins | src/lib/CutCommand.tsx:48-58 | the merge segment is the merge lines joined, two lines per crop |
| CutCommand.ScriptHeaderLines | src/lib/CutCommand.tsx:60-66 | the script opens with the title comment, `mkdir -p` of the output directory, the trim command (seek to the start, the source path as given, the duration, the clip path), the audio extraction and the blank-canvas command |
| CutCommand.ScriptShape | src/lib/CutCommand.tsx:60-71 | the script has 5 header lines, then the crop block (n lines, or one empty line), the merge block (2n lines, or one empty line), one line per memo line and two final empty lines |
| CutCommand.ScriptCropLine | src/lib/CutCommand.tsx:40-46 | line 5+i is the crop command of crop i: from the clip, with crop i's source rectangle, into `{title}-crop-{i}.mp4` |
| CutCommand.ScriptMergeLines | src/lib/CutCommand.tsx:48-58 | lines 5+n+2i and 5+n+2i+1 are merge i's scale (crop i to scale i at the drawn size) and its overlay (scale i onto the previous canvas at the drawn position, into merge i) |
| CutCommand.MergeLineAt | src/lib/CutCommand.tsx:54-57 | the merge block holds merge i's scale and overlay commands at positions 2i and 2i+1 |
| CutCommand.MergeBlockAt | src/lib/CutCommand.tsx:48-58 | the same positions in the script's merge block for a job with crops |
| CutCommand.ScriptMemoLine | src/lib/CutCommand.tsx:34 | after the merge block, line k is `# ` followed by memo line k |
| CutCommand.MemoBlockReadsBack | src/lib/CutCommand.tsx:34 | there is one comment per memo line, each starting with `# `; stripping the marks and joining gives the memo back, and an empty memo gives the single line `# ` |
| CutCommand.LinesHaveNoNewline | src/lib/CutCommand.tsx:60-71 | no script line holds a line break when the job's texts hold none |
| CutCommand.CutJobIsSingleLine | src/lib/CutCommand.tsx:25-38 | with a single-line environment value, path, title and raw duration, every text the command is built from is single-line |
| CutCommand.OutputDirHasNoNewline | src/lib/CutCommand.tsx:3 | the output directory built from the environment's root (or `outputs`) and the movie name is one line when the environment value and the path are |
| CutCommand.ScriptSplitsIntoLines | src/lib/CutCommand.tsx:60-71 | splitting the script at line breaks gives back exactly its lines when the environment value, path, title and raw duration hold no line break |
| CutCommand.BlankHasNoNewline | src/lib/CutCommand.tsx:38 | the blank-canvas command is one line when its inputs are |
| CutCommand.MemoBlockHasNoNewline | src/lib/CutCommand.tsx:34 | no memo comment holds a line break |

## Left out

- Numbers are exact `real`s, not IEEE-754 doubles. The rounding of `time += step` in the mark loops and of the millisecond arithmetic is not modelled.
- The raw duration in the blank-canvas command is printed by JavaScript's number-to-string conversion. The model takes that conversion as the function parameter `renderNumber`. Rectangle and size fields are integers and print in decimal.
- The output root comes from the build-time environment variable `VITE_OUTPUT_DIR_PATH`. Here the variable's value is the parameter `env` of `convertTimeToCutCommand`, `None` when it is unset. The root is built from it by `OutputTargetDirPath`, as in the source.
- The call site at src/components/VideoCutEditor.tsx:50-52 passes ten arguments to the six-parameter `convertTimeToCutCommand`. The model follows the function as declared; the call site is UI wiring and is not modelled.
- The comment at src/lib/FormatTime.tsx:12 calls the short format `MM:SS`. The code writes unpadded minutes (`M:SS`), and the model follows the code.
- The movie name is the text before the first dot of the file name, as the code computes it. The model does not strip only the last extension.
- `calculateTrimMarks` and `calculateMarks` share one modelled loop, `SliderMarks.StepMarks`.
  - It requires a positive step. The source's loop never ends with a step of 0 or less, and its callers' tables, with their fallback of an hour, never give one.
  - The mark field `label` is named `text`, because `label` is a Dafny keyword.
- `handleChange` receives a value of the union `number | number[]`. The model takes a single value or a pair, so arrays of other lengths are not modelled.
- The default `sort()` compares UTF-16 code units. The model compares Dafny characters, which agrees for text within the Basic Multilingual Plane.
- `categoryListReducer` has no case for other action types, and the model has none either. JavaScript returns `undefined` there.
- React rendering, the MUI widgets, state hooks, the clipboard write, canvas drawing, the crop editor, the file selector, the progress bar and playback polling are UI and browser I/O. They are not part of this model.
- The script's `-complete.mp4` copy, YAML output and name/ruby/category/URL memo lines do not exist in the code and are not modelled.
