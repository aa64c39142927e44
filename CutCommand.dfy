/**
 * The command synthesiser (src/lib/CutCommand.tsx): from a source path, a
 * trim range, a title, a memo and a crop preview it writes the shell script
 * that cuts the clip, extracts its audio, builds a blank canvas, crops each
 * region and overlays the scaled crops onto the canvas one after another.
 *
 * The output root comes from the environment variable
 * `VITE_OUTPUT_DIR_PATH` in the source; here the variable's value is the
 * parameter `env` (`None` when it is unset). The blank
 * canvas command prints the raw duration with JavaScript's number-to-string
 * conversion; here that conversion is the parameter `renderNumber`.
 */
module CutCommand {
  import opened Strings
  import opened FormatTime

  /** A rectangle in pixels. */
  datatype Rect = Rect(x: int, y: int, width: int, height: int)

  /** A region read from the clip (`source`) and where it is drawn on the canvas (`draw`). */
  datatype Crop = Crop(source: Rect, draw: Rect)

  datatype Size = Size(width: int, height: int)

  /** The canvas size and the crops, drawn in list order (later ones on top). */
  datatype Preview = Preview(size: Size, crops: seq<Crop>)

  const DefaultOutputDir: string := "outputs"
  const FallbackMovieName: string := "movie-name"

  /** The output root from the build environment: an unset or empty variable falls back to `outputs`. */
  function OutputTargetDirPath(env: Option<string>): (root: string)
    ensures root != ""
    ensures env.Some? && env.value != "" ==> root == env.value
    ensures env.None? || env.value == "" ==> root == DefaultOutputDir
  {
    match env
    case Some(v) => if v != "" then v else DefaultOutputDir
    case None => DefaultOutputDir
  }

  /** The file name of `path`: what follows its last `/`. */
  function FileName(path: string): string
  {
    var segments := Split(path, '/');
    segments[|segments| - 1]
  }

  /**
   * The movie name: the last `/`-separated segment of the path cut at its
   * FIRST dot, or `movie-name` when that leaves nothing.
   */
  function MovieName(path: string): string
  {
    var stem := Split(FileName(path), '.')[0];
    if stem != "" then stem else FallbackMovieName
  }

  /** The directory every generated file is written to. */
  function OutputDirPath(root: string, path: string): string
  {
    root + "/" + MovieName(path)
  }

  function ClipPath(dir: string, title: string): string { dir + "/" + title + ".mp4" }
  function WavPath(dir: string, title: string): string { dir + "/" + title + ".wav" }
  function BlankPath(dir: string): string { dir + "/base.mp4" }

  function CropPath(dir: string, title: string, i: nat): string
  {
    dir + "/" + title + "-crop-" + NatToString(i) + ".mp4"
  }

  function ScalePath(dir: string, title: string, i: nat): string
  {
    dir + "/" + title + "-scale-" + NatToString(i) + ".mp4"
  }

  function MergePath(dir: string, title: string, i: nat): string
  {
    dir + "/" + title + "-merge-" + NatToString(i) + ".mp4"
  }

  /** The canvas merge `i` draws onto: the blank canvas first, then the previous merge's output. */
  function MergeBase(dir: string, title: string, i: nat): string
  {
    if i == 0 then BlankPath(dir) else MergePath(dir, title, i - 1)
  }

  // ---------------------------------------------------------------------
  // The individual commands

  function TrimCommand(path: string, start: string, duration: string, clip: string): string
  {
    "ffmpeg -y -ss " + start + " -i " + path + " -t " + duration + " " + clip
  }

  function WavCommand(clip: string, wav: string): string
  {
    "ffmpeg -y -i " + clip + " -vn " + wav
  }

  function BlankCommand(size: Size, rawSeconds: string, duration: string, blank: string): string
  {
    "ffmpeg -y " + CanvasInput(size, rawSeconds) + " " + SilenceInput(duration) + " " + blank
  }

  /** An input generated by an ffmpeg lavfi filter. */
  function LavfiInput(filter: string): string
  {
    "-f lavfi -i '" + filter + "'"
  }

  /** A black canvas of the preview's size at 29.97 frames a second, `rawSeconds` long. */
  function CanvasInput(size: Size, rawSeconds: string): string
  {
    LavfiInput("color=c=black:s=" + IntToString(size.width) + "x" + IntToString(size.height)
               + ":r=30000/1001:d=" + rawSeconds)
  }

  /** Stereo silence at 44.1 kHz for the clip's duration. */
  function SilenceInput(duration: string): string
  {
    LavfiInput("aevalsrc=0|0:c=stereo:s=44100:d=" + duration)
  }

  function CropFilter(r: Rect): string
  {
    "-vf crop=" + IntToString(r.width) + ":" + IntToString(r.height) + ":"
      + IntToString(r.x) + ":" + IntToString(r.y)
  }

  function CropCommand(clip: string, source: Rect, cropPath: string): string
  {
    "ffmpeg -y -i " + clip + " " + CropFilter(source) + " " + cropPath
  }

  function ScaleCommand(cropPath: string, draw: Rect, scalePath: string): string
  {
    "ffmpeg -y -i " + cropPath + " -vf scale=" + IntToString(draw.width) + "x"
      + IntToString(draw.height) + " " + scalePath
  }

  function OverlayCommand(basePath: string, scalePath: string, draw: Rect, mergePath: string): string
  {
    "ffmpeg -y -i " + basePath + " -i " + scalePath + " -filter_complex \"overlay=x="
      + IntToString(draw.x) + ":y=" + IntToString(draw.y) + "\" " + mergePath
  }

  /** The crop commands, one per crop in list order (`sourceCropCommands`). */
  function SourceCropCommands(dir: string, title: string, crops: seq<Crop>): seq<string>
  {
    seq(|crops|, i requires 0 <= i < |crops| =>
      CropCommand(ClipPath(dir, title), crops[i].source, CropPath(dir, title, i)))
  }

  /** The two lines of merge `i`: scale the crop, then overlay it onto the current canvas. */
  function MergeLines(dir: string, title: string, crops: seq<Crop>, i: nat): seq<string>
    requires i < |crops|
  {
    [ ScaleCommand(CropPath(dir, title, i), crops[i].draw, ScalePath(dir, title, i)),
      OverlayCommand(MergeBase(dir, title, i), ScalePath(dir, title, i), crops[i].draw,
                     MergePath(dir, title, i)) ]
  }

  /** The line pairs of all merges, in crop order. */
  function MergePairs(dir: string, title: string, crops: seq<Crop>): seq<seq<string>>
  {
    seq(|crops|, i requires 0 <= i < |crops| => MergeLines(dir, title, crops, i))
  }

  /** `mergeCommands`: each merge's two lines joined by a newline. */
  function MergeCommands(dir: string, title: string, crops: seq<Crop>): seq<string>
  {
    JoinEach(MergePairs(dir, title, crops), '\n')
  }

  /** One `# ` comment per line of the memo. */
  function MemoLines(memo: string): seq<string>
  {
    var lines := Split(memo, '\n');
    seq(|lines|, i requires 0 <= i < |lines| => "# " + lines[i])
  }

  /**
   * What `convertTimeToCutCommand` works out before it assembles the script:
   * the output directory, the start and duration as `H:MM:SS.mmm`, and the
   * raw duration in seconds as JavaScript prints it.
   */
  datatype Job = Job(dir: string, path: string, title: string, memo: string, preview: Preview,
                     start: string, duration: string, rawSeconds: string)

  /** The clip's length in seconds. */
  function DurationSeconds(startTime: real, endTime: real): real
  {
    endTime - startTime
  }

  function CutJob(env: Option<string>, renderNumber: real -> string,
                  path: string, startTime: real, endTime: real,
                  title: string, memo: string, preview: Preview): Job
  {
    var durationSeconds := DurationSeconds(startTime, endTime);
    Job(OutputDirPath(OutputTargetDirPath(env), path), path, title, memo, preview,
        ConvertMilliSecondsTimeToText(startTime), ConvertMilliSecondsTimeToText(durationSeconds),
        renderNumber(durationSeconds))
  }

  /**
   * `convertTimeToCutCommand`: the nine segments of the script joined by
   * newlines. The blank-canvas command is always there; with no crops the
   * crop and merge segments are empty.
   */
  function ConvertTimeToCutCommand(env: Option<string>, renderNumber: real -> string,
                                   path: string, startTime: real, endTime: real,
                                   title: string, memo: string, preview: Preview): string
  {
    Join(Segments(CutJob(env, renderNumber, path, startTime, endTime, title, memo, preview)), '\n')
  }

  function Segments(job: Job): seq<string>
  {
    var dir, title := job.dir, job.title;
    [ "# " + title,
      "mkdir -p " + dir,
      TrimCommand(job.path, job.start, job.duration, ClipPath(dir, title)),
      WavCommand(ClipPath(dir, title), WavPath(dir, title)),
      BlankCommand(job.preview.size, job.rawSeconds, job.duration, BlankPath(dir)),
      Join(SourceCropCommands(dir, title, job.preview.crops), '\n'),
      Join(MergeCommands(dir, title, job.preview.crops), '\n'),
      Join(MemoLines(job.memo), '\n'),
      "\n" ]
  }

  // ---------------------------------------------------------------------
  // The script line by line

  /** The merge block as lines: the two lines of every merge, in crop order. */
  function MergeBlockLines(dir: string, title: string, crops: seq<Crop>): seq<string>
  {
    Flatten(MergePairs(dir, title, crops))
  }

  /** The first five lines: title comment, mkdir, trim, audio, blank canvas. */
  function HeaderLines(job: Job): seq<string>
  {
    var dir, title := job.dir, job.title;
    [ "# " + title,
      "mkdir -p " + dir,
      TrimCommand(job.path, job.start, job.duration, ClipPath(dir, title)),
      WavCommand(ClipPath(dir, title), WavPath(dir, title)),
      BlankCommand(job.preview.size, job.rawSeconds, job.duration, BlankPath(dir)) ]
  }

  /** The crop block's lines; one empty line when there are no crops. */
  function CropBlockLines(job: Job): seq<string>
  {
    if job.preview.crops == [] then [""] else SourceCropCommands(job.dir, job.title, job.preview.crops)
  }

  /** The merge block's lines; one empty line when there are no crops. */
  function MergeBlock(job: Job): seq<string>
  {
    if job.preview.crops == [] then [""] else MergeBlockLines(job.dir, job.title, job.preview.crops)
  }

  /**
   * The script's lines: the header, the crop lines, the merge lines, the
   * memo comments and the two empty lines of the final `"\n"`.
   */
  function ScriptLines(job: Job): seq<string>
  {
    Layout(HeaderLines(job), CropBlockLines(job), MergeBlock(job), MemoLines(job.memo))
  }

  /** Four blocks of lines followed by two empty lines. */
  function Layout(header: seq<string>, crops: seq<string>, merges: seq<string>, memo: seq<string>): seq<string>
  {
    header + crops + merges + memo + ["", ""]
  }

  /** The script's segments, each as the lines it consists of. */
  function ScriptGroups(job: Job): seq<seq<string>>
  {
    var segments := Segments(job);
    [ [segments[0]], [segments[1]], [segments[2]], [segments[3]], [segments[4]],
      CropBlockLines(job), MergeBlock(job), MemoLines(job.memo), ["", ""] ]
  }

  lemma {:induction false} GroupsFlattenToLines(job: Job)
    ensures Flatten(ScriptGroups(job)) == ScriptLines(job)
  {
    var g := ScriptGroups(job);
    FlattenNine(g);
    assert HeaderLines(job) == g[0] + g[1] + g[2] + g[3] + g[4];
  }

  lemma FlattenNine(g: seq<seq<string>>)
    requires |g| == 9
    ensures Flatten(g) == g[0] + g[1] + g[2] + g[3] + g[4] + g[5] + g[6] + g[7] + g[8]
  {
    assert g == [g[0]] + [g[1]] + [g[2]] + [g[3]] + [g[4]] + [g[5]] + [g[6]] + [g[7]] + [g[8]];
    FlattenAppend([g[0]] + [g[1]] + [g[2]] + [g[3]] + [g[4]] + [g[5]] + [g[6]] + [g[7]], [g[8]]);
    FlattenAppend([g[0]] + [g[1]] + [g[2]] + [g[3]] + [g[4]] + [g[5]] + [g[6]], [g[7]]);
    FlattenAppend([g[0]] + [g[1]] + [g[2]] + [g[3]] + [g[4]] + [g[5]], [g[6]]);
    FlattenAppend([g[0]] + [g[1]] + [g[2]] + [g[3]] + [g[4]], [g[5]]);
    FlattenAppend([g[0]] + [g[1]] + [g[2]] + [g[3]], [g[4]]);
    FlattenAppend([g[0]] + [g[1]] + [g[2]], [g[3]]);
    FlattenAppend([g[0]] + [g[1]], [g[2]]);
    FlattenAppend([g[0]], [g[1]]);
    forall k | 0 <= k < 9 ensures Flatten([g[k]]) == g[k] { FlattenSingle(g[k]); }
  }

  /** Each segment is the join of its lines. */
  lemma {:induction false} SegmentsJoinGroups(job: Job)
    ensures var g := ScriptGroups(job);
      && |g| == 9
      && |g[0]| >= 1 && |g[1]| >= 1 && |g[2]| >= 1 && |g[3]| >= 1 && |g[4]| >= 1
      && |g[5]| >= 1 && |g[6]| >= 1 && |g[7]| >= 1 && |g[8]| >= 1
      && JoinEach(g, '\n') == Segments(job)
  {
    var g := ScriptGroups(job);
    MergeBlockJoins(job.dir, job.title, job.preview.crops);
    assert Join(["", ""], '\n') == "\n";
    JoinEachOfNine(g, '\n');
    assert |Split(job.memo, '\n')| >= 1;
  }

  /** The merge segment is the merge block's lines joined: two lines per crop. */
  lemma {:induction false} MergeBlockJoins(dir: string, title: string, crops: seq<Crop>)
    ensures |MergeBlockLines(dir, title, crops)| == 2 * |crops|
    ensures Join(MergeCommands(dir, title, crops), '\n') == Join(MergeBlockLines(dir, title, crops), '\n')
  {
    MergeBlockLength(dir, title, crops);
    JoinFlatten(MergePairs(dir, title, crops), '\n');
  }

  /** Two lines per crop. */
  lemma MergeBlockLength(dir: string, title: string, crops: seq<Crop>)
    ensures |MergeBlockLines(dir, title, crops)| == 2 * |crops|
  {
    var pairs := MergePairs(dir, title, crops);
    if crops != [] {
      FlattenPairs(pairs, 0);
    } else {
      assert MergeBlockLines(dir, title, crops) == Flatten([]);
    }
  }

  lemma JoinEachOfNine(g: seq<seq<string>>, sep: char)
    requires |g| == 9
    ensures JoinEach(g, sep)
         == [ Join(g[0], sep), Join(g[1], sep), Join(g[2], sep), Join(g[3], sep), Join(g[4], sep),
              Join(g[5], sep), Join(g[6], sep), Join(g[7], sep), Join(g[8], sep) ]
  {
  }

  /**
   * The script is its lines joined by newlines: the crop and merge blocks
   * expand into one line per crop command and two per merge, in crop order.
   */
  lemma {:induction false} ScriptIsItsLines(env: Option<string>, renderNumber: real -> string,
                                            path: string, startTime: real, endTime: real,
                                            title: string, memo: string, preview: Preview)
    ensures var job := CutJob(env, renderNumber, path, startTime, endTime, title, memo, preview);
      ConvertTimeToCutCommand(env, renderNumber, path, startTime, endTime, title, memo, preview)
      == Join(ScriptLines(job), '\n')
  {
    JobScriptIsItsLines(CutJob(env, renderNumber, path, startTime, endTime, title, memo, preview));
  }

  /** The nine segments of any job, joined, are its script lines joined. */
  lemma {:induction false} JobScriptIsItsLines(job: Job)
    ensures Join(Segments(job), '\n') == Join(ScriptLines(job), '\n')
  {
    var g := ScriptGroups(job);
    SegmentsJoinGroups(job);
    JoinFlatten(g, '\n');
    GroupsFlattenToLines(job);
  }

  /** Where each block's lines sit in the layout, and its length. */
  lemma LayoutLength(h: seq<string>, c: seq<string>, m: seq<string>, mm: seq<string>)
    ensures |Layout(h, c, m, mm)| == |h| + |c| + |m| + |mm| + 2
  {
  }

  lemma LayoutHeaderAt(h: seq<string>, c: seq<string>, m: seq<string>, mm: seq<string>, k: nat)
    requires k < |h|
    ensures Layout(h, c, m, mm)[k] == h[k]
  {
    assert Layout(h, c, m, mm) == h + (c + m + mm + ["", ""]);
  }

  lemma LayoutCropAt(h: seq<string>, c: seq<string>, m: seq<string>, mm: seq<string>, k: nat)
    requires k < |c|
    ensures |h| + k < |Layout(h, c, m, mm)| && Layout(h, c, m, mm)[|h| + k] == c[k]
  {
    assert Layout(h, c, m, mm) == h + c + (m + mm + ["", ""]);
  }

  lemma LayoutMergeAt(h: seq<string>, c: seq<string>, m: seq<string>, mm: seq<string>, k: nat)
    requires k < |m|
    ensures |h| + |c| + k < |Layout(h, c, m, mm)| && Layout(h, c, m, mm)[|h| + |c| + k] == m[k]
  {
    assert Layout(h, c, m, mm) == h + c + m + (mm + ["", ""]);
  }

  /** Lines `2i` and `2i + 1` of the merge block sit at `5 + n + 2i` and `5 + n + 2i + 1` behind a five-line header and `n` crop lines. */
  lemma LayoutMergePair(h: seq<string>, c: seq<string>, m: seq<string>, mm: seq<string>, n: nat, i: nat)
    requires |h| == 5 && |c| == n && 2 * i + 1 < |m|
    ensures 5 + n + 2 * i + 1 < |Layout(h, c, m, mm)|
    ensures Layout(h, c, m, mm)[5 + n + 2 * i] == m[2 * i]
    ensures Layout(h, c, m, mm)[5 + n + 2 * i + 1] == m[2 * i + 1]
  {
    LayoutMergeAt(h, c, m, mm, 2 * i);
    LayoutMergeAt(h, c, m, mm, 2 * i + 1);
  }

  lemma LayoutMemoAt(h: seq<string>, c: seq<string>, m: seq<string>, mm: seq<string>, k: nat)
    requires k < |mm|
    ensures |h| + |c| + |m| + k < |Layout(h, c, m, mm)|
    ensures Layout(h, c, m, mm)[|h| + |c| + |m| + k] == mm[k]
  {
  }

  lemma LayoutEnd(h: seq<string>, c: seq<string>, m: seq<string>, mm: seq<string>)
    ensures var L := Layout(h, c, m, mm); |L| >= 2 && L[|L| - 2] == "" && L[|L| - 1] == ""
  {
  }

  /** The lengths of the four blocks. */
  lemma BlockLengths(job: Job)
    ensures |HeaderLines(job)| == 5
    ensures |CropBlockLines(job)| == (if job.preview.crops == [] then 1 else |job.preview.crops|)
    ensures |MergeBlock(job)| == (if job.preview.crops == [] then 1 else 2 * |job.preview.crops|)
    ensures |MemoLines(job.memo)| == |Split(job.memo, '\n')|
  {
    HeaderLength(job);
    CropBlockLength(job);
    MergeBlockLength(job.dir, job.title, job.preview.crops);
  }

  lemma HeaderLength(job: Job)
    ensures |HeaderLines(job)| == 5
  {
  }

  lemma CropBlockLength(job: Job)
    ensures |CropBlockLines(job)| == (if job.preview.crops == [] then 1 else |job.preview.crops|)
  {
  }

  /** With crops, merge `i` occupies lines `2i` and `2i + 1` of the merge block. */
  lemma MergeBlockAt(job: Job, i: nat)
    requires i < |job.preview.crops|
    ensures var dir, title, draw := job.dir, job.title, job.preview.crops[i].draw;
      && 2 * i + 1 < |MergeBlock(job)|
      && MergeBlock(job)[2 * i] == ScaleCommand(CropPath(dir, title, i), draw, ScalePath(dir, title, i))
      && MergeBlock(job)[2 * i + 1]
         == OverlayCommand(MergeBase(dir, title, i), ScalePath(dir, title, i), draw, MergePath(dir, title, i))
  {
    MergeLineAt(job.dir, job.title, job.preview.crops, i);
  }

  /**
   * Line by line: title comment, `mkdir -p` of the output directory, the trim
   * command (seek to the start, read `path` as given, run for the duration,
   * write the clip), the audio command, and the blank canvas command, which
   * is there even without crops.
   */
  lemma ScriptHeaderLines(job: Job)
    ensures var L := ScriptLines(job);
      var dir, title := job.dir, job.title;
      && |L| >= 5
      && L[0] == "# " + title
      && L[1] == "mkdir -p " + dir
      && L[2] == TrimCommand(job.path, job.start, job.duration, ClipPath(dir, title))
      && L[3] == WavCommand(ClipPath(dir, title), WavPath(dir, title))
      && L[4] == BlankCommand(job.preview.size, job.rawSeconds, job.duration, BlankPath(dir))
  {
    ScriptStartsWithHeader(job);
  }

  /** The script's first five lines are the header's. */
  lemma ScriptStartsWithHeader(job: Job)
    ensures var L, H := ScriptLines(job), HeaderLines(job);
      && |H| == 5 && |L| >= 5
      && L[0] == H[0] && L[1] == H[1] && L[2] == H[2] && L[3] == H[3] && L[4] == H[4]
  {
    var h, c, m, mm := HeaderLines(job), CropBlockLines(job), MergeBlock(job), MemoLines(job.memo);
    HeaderLength(job);
    LayoutHeaderAt(h, c, m, mm, 0);
    LayoutHeaderAt(h, c, m, mm, 1);
    LayoutHeaderAt(h, c, m, mm, 2);
    LayoutHeaderAt(h, c, m, mm, 3);
    LayoutHeaderAt(h, c, m, mm, 4);
  }

  /**
   * The script's length: five header lines, one line per crop (or one empty
   * line), two per merge (or one empty line), one per memo line, and the two
   * empty lines of the closing newline.
   */
  lemma {:induction false} ScriptShape(job: Job)
    ensures var L := ScriptLines(job);
      var n := |job.preview.crops|;
      && |L| == 5 + (if n == 0 then 1 else n) + (if n == 0 then 1 else 2 * n)
                  + |Split(job.memo, '\n')| + 2
      && (n == 0 ==> L[5] == "" && L[6] == "")
      && L[|L| - 2] == "" && L[|L| - 1] == ""
  {
    var h, c, m, mm := HeaderLines(job), CropBlockLines(job), MergeBlock(job), MemoLines(job.memo);
    BlockLengths(job);
    LayoutLength(h, c, m, mm);
    if job.preview.crops == [] {
      LayoutCropAt(h, c, m, mm, 0);
      LayoutMergeAt(h, c, m, mm, 0);
    }
    LayoutEnd(h, c, m, mm);
  }

  /** Line `5 + i` crops region `crops[i].source` out of the clip into `crop-i`. */
  lemma {:induction false} ScriptCropLine(job: Job, i: nat)
    requires i < |job.preview.crops|
    ensures var L := ScriptLines(job);
      && 5 + i < |L|
      && L[5 + i] == CropCommand(ClipPath(job.dir, job.title), job.preview.crops[i].source,
                                 CropPath(job.dir, job.title, i))
  {
    var h, c, m, mm := HeaderLines(job), CropBlockLines(job), MergeBlock(job), MemoLines(job.memo);
    BlockLengths(job);
    LayoutCropAt(h, c, m, mm, i);
  }

  /**
   * Crop `i` contributes lines `5 + n + 2i` and `5 + n + 2i + 1`: scale
   * `crop-i` to the draw size into `scale-i`, then overlay `scale-i` at the
   * draw position onto merge `i`'s base, writing `merge-i`.
   */
  lemma ScriptMergeLines(job: Job, i: nat)
    requires i < |job.preview.crops|
    ensures var L := ScriptLines(job);
      var n := |job.preview.crops|;
      var dir, title := job.dir, job.title;
      var draw := job.preview.crops[i].draw;
      && 5 + n + 2 * i + 1 < |L|
      && L[5 + n + 2 * i] == ScaleCommand(CropPath(dir, title, i), draw, ScalePath(dir, title, i))
      && L[5 + n + 2 * i + 1]
         == OverlayCommand(MergeBase(dir, title, i), ScalePath(dir, title, i), draw, MergePath(dir, title, i))
  {
    ScriptMergeBlockAt(job, i);
    MergeBlockAt(job, i);
  }

  /** The merge block's lines `2i` and `2i + 1` are the script's lines `5 + n + 2i` and `5 + n + 2i + 1`. */
  lemma ScriptMergeBlockAt(job: Job, i: nat)
    requires i < |job.preview.crops|
    ensures var L, M, n := ScriptLines(job), MergeBlock(job), |job.preview.crops|;
      && 2 * i + 1 < |M| && 5 + n + 2 * i + 1 < |L|
      && L[5 + n + 2 * i] == M[2 * i] && L[5 + n + 2 * i + 1] == M[2 * i + 1]
  {
    var h, c, m, mm := HeaderLines(job), CropBlockLines(job), MergeBlock(job), MemoLines(job.memo);
    HeaderLength(job);
    CropBlockLength(job);
    MergeBlockLength(job.dir, job.title, job.preview.crops);
    LayoutMergePair(h, c, m, mm, |job.preview.crops|, i);
  }

  /** Lines `2i` and `2i + 1` of the merge block are merge `i`'s scale and overlay commands. */
  lemma {:induction false} MergeLineAt(dir: string, title: string, crops: seq<Crop>, i: nat)
    requires i < |crops|
    ensures var M := MergeBlockLines(dir, title, crops);
      var draw := crops[i].draw;
      && |M| == 2 * |crops|
      && M[2 * i] == ScaleCommand(CropPath(dir, title, i), draw, ScalePath(dir, title, i))
      && M[2 * i + 1]
         == OverlayCommand(MergeBase(dir, title, i), ScalePath(dir, title, i), draw, MergePath(dir, title, i))
  {
    var pairs := MergePairs(dir, title, crops);
    FlattenPairs(pairs, i);
    assert pairs[i] == MergeLines(dir, title, crops, i);
  }

  /** After the merge block come the memo comments, one per memo line, in order. */
  lemma {:induction false} ScriptMemoLine(job: Job, k: nat)
    requires k < |Split(job.memo, '\n')|
    ensures var L := ScriptLines(job);
      var n := |job.preview.crops|;
      var offset := 5 + (if n == 0 then 1 else n) + (if n == 0 then 1 else 2 * n);
      && offset + k < |L|
      && L[offset + k] == "# " + Split(job.memo, '\n')[k]
  {
    var h, c, m, mm := HeaderLines(job), CropBlockLines(job), MergeBlock(job), MemoLines(job.memo);
    BlockLengths(job);
    LayoutMemoAt(h, c, m, mm, k);
  }

  /**
   * The merge fold: merge 0 draws onto the blank canvas and merge `i + 1`
   * onto merge `i`'s output; every merge writes a file of its own, and no
   * merge reads the file it writes.
   */
  lemma MergeChain(dir: string, title: string, i: nat, j: nat)
    ensures MergeBase(dir, title, 0) == BlankPath(dir)
    ensures MergeBase(dir, title, i + 1) == MergePath(dir, title, i)
    ensures MergeBase(dir, title, i) != MergePath(dir, title, i)
    ensures i != j ==> MergePath(dir, title, i) != MergePath(dir, title, j)
  {
    if MergePath(dir, title, i) == MergePath(dir, title, j) {
      MergePathInjective(dir, title, i, j);
    }
    if i == 0 {
      var blank, merge := BlankPath(dir), MergePath(dir, title, 0);
      assert blank[|blank| - 5] == 'e';
      assert merge[|merge| - 5] == '0' by {
        assert merge == dir + "/" + title + "-merge-" + "0" + ".mp4";
      }
    } else if MergePath(dir, title, i - 1) == MergePath(dir, title, i) {
      MergePathInjective(dir, title, i - 1, i);
    }
  }

  /** Distinct merges write distinct files. */
  lemma MergePathInjective(dir: string, title: string, i: nat, j: nat)
    requires MergePath(dir, title, i) == MergePath(dir, title, j)
    ensures i == j
  {
    var prefix := dir + "/" + title + "-merge-";
    var a, b := NatToString(i), NatToString(j);
    assert MergePath(dir, title, i) == prefix + a + ".mp4";
    assert MergePath(dir, title, j) == prefix + b + ".mp4";
    assert |a| == |b|;
    assert a == (prefix + a + ".mp4")[|prefix|..|prefix| + |a|];
    assert b == (prefix + b + ".mp4")[|prefix|..|prefix| + |b|];
    NatToStringInjective(i, j);
  }

  /** Each line without its first two characters (the `# ` mark of a memo comment). */
  function StripMarks(lines: seq<string>): seq<string>
  {
    seq(|lines|, k requires 0 <= k < |lines| => if |lines[k]| >= 2 then lines[k][2..] else lines[k])
  }

  /** The memo block: one `# ` comment per memo line; stripping the marks gives the memo back. */
  lemma {:induction false} MemoBlockReadsBack(memo: string)
    ensures |MemoLines(memo)| == |Split(memo, '\n')|
    ensures forall k :: 0 <= k < |MemoLines(memo)| ==> MemoLines(memo)[k][..2] == "# "
    ensures Join(StripMarks(MemoLines(memo)), '\n') == memo
    ensures memo == "" ==> MemoLines(memo) == ["# "]
  {
    var lines := MemoLines(memo);
    var parts := Split(memo, '\n');
    forall k | 0 <= k < |lines| ensures StripMarks(lines)[k] == parts[k] {
      assert lines[k] == "# " + parts[k];
    }
    assert StripMarks(lines) == parts;
    JoinSplit(memo, '\n');
    if memo == "" {
      assert parts == [""];
      assert "# " + "" == "# ";
      assert lines == ["# "];
    }
  }

  /**
   * The movie name is the part of the file name (the text after the last `/`)
   * before its first `.`; when that part is empty, as for an empty path, a
   * path ending in `/` or a file name starting with a dot, it is `movie-name`.
   */
  lemma MovieNameOfPath(path: string)
    ensures var file := FileName(path);
      && |file| <= |path| && path[|path| - |file|..] == file && '/' !in file
      && (|file| == |path| || path[|path| - |file| - 1] == '/')
    ensures var file, name := FileName(path), MovieName(path);
      && name != "" && '/' !in name
      && ((file == "" || file[0] == '.') ==> name == FallbackMovieName)
      && (file != "" && file[0] != '.' ==>
            |name| <= |file| && file[..|name|] == name && '.' !in name
            && (|name| == |file| || file[|name|] == '.'))
  {
    var file := FileName(path);
    SplitLastIsSuffix(path, '/');
    SplitFirstIsPrefix(file, '.');
    var stem := Split(file, '.')[0];
    if stem != "" {
      assert forall k :: 0 <= k < |stem| ==> stem[k] == file[k];
    }
  }

  /** The file name of `dir/file` is `file` whatever `dir` holds. */
  lemma FileNameAfterSlash(dir: string, file: string)
    requires '/' !in file
    ensures FileName(dir + "/" + file) == file
  {
    var path := dir + "/" + file;
    MovieNameOfPath(path);
    var name := FileName(path);
    assert path[|path| - |file| - 1] == '/';
    assert path[|path| - |file|..] == file;
  }

  /** A path `dir/stem.ext…` whose stem is non-empty has that stem as its movie name. */
  lemma MovieNameOfStem(dir: string, stem: string, rest: string)
    requires stem != "" && '/' !in stem && '.' !in stem && '/' !in rest
    ensures MovieName(dir + "/" + stem + "." + rest) == stem
  {
    var file := stem + "." + rest;
    assert '/' !in file;
    assert dir + "/" + stem + "." + rest == dir + "/" + file;
    FileNameAfterSlash(dir, file);
    SplitAfterPrefix(stem, rest, '.');
  }

  /** An empty path, or one ending in `/`, gives the fallback name. */
  lemma MovieNameFallbackExamples()
    ensures MovieName("") == FallbackMovieName
    ensures MovieName("clips/") == FallbackMovieName
  {
    MovieNameOfPath("clips/");
    MovieNameOfPath("");
  }

  /** Every file the script writes lies in `{root}/{movieName}`. */
  lemma OutputsUnderDirectory(root: string, path: string, title: string, i: nat)
    ensures var dir := OutputDirPath(root, path);
      && dir == root + "/" + MovieName(path)
      && ClipPath(dir, title) == dir + "/" + title + ".mp4"
      && WavPath(dir, title) == dir + "/" + title + ".wav"
      && BlankPath(dir) == dir + "/base.mp4"
      && CropPath(dir, title, i)[..|dir| + 1] == dir + "/"
      && ScalePath(dir, title, i)[..|dir| + 1] == dir + "/"
      && MergePath(dir, title, i)[..|dir| + 1] == dir + "/"
  {
    var dir := OutputDirPath(root, path);
    var n := NatToString(i);
    assert CropPath(dir, title, i) == (dir + "/") + (title + "-crop-" + n + ".mp4");
    assert ScalePath(dir, title, i) == (dir + "/") + (title + "-scale-" + n + ".mp4");
    assert MergePath(dir, title, i) == (dir + "/") + (title + "-merge-" + n + ".mp4");
  }

  // ---------------------------------------------------------------------
  // Reading the script back line by line

  lemma NumberHasNoNewline(i: int)
    ensures '\n' !in IntToString(i)
  {
  }

  lemma IndexHasNoNewline(i: nat)
    ensures '\n' !in NatToString(i)
  {
  }

  /** A name taken from a path without line breaks has none either. */
  lemma MovieNameHasNoNewline(path: string)
    requires '\n' !in path
    ensures '\n' !in MovieName(path)
  {
    var file := FileName(path);
    SplitLastIsSuffix(path, '/');
    SliceHasNo(path, |path| - |file|, |path|, '\n');
    var stem := Split(file, '.')[0];
    SplitFirstIsPrefix(file, '.');
    SliceHasNo(file, 0, |stem|, '\n');
  }

  lemma SliceHasNo(s: string, i: nat, j: nat, ch: char)
    requires i <= j <= |s| && ch !in s
    ensures ch !in s[i..j]
  {
    assert forall k :: 0 <= k < j - i ==> s[i..j][k] == s[i + k];
  }

  lemma RectHasNoNewline(r: Rect)
    ensures '\n' !in CropFilter(r)
    ensures '\n' !in IntToString(r.x) && '\n' !in IntToString(r.y)
    ensures '\n' !in IntToString(r.width) && '\n' !in IntToString(r.height)
  {
    NumberHasNoNewline(r.x);
    NumberHasNoNewline(r.y);
    NumberHasNoNewline(r.width);
    NumberHasNoNewline(r.height);
  }

  /** The job's own texts hold no line break. */
  predicate SingleLineJob(job: Job)
  {
    && '\n' !in job.dir && '\n' !in job.path && '\n' !in job.title
    && '\n' !in job.start && '\n' !in job.duration && '\n' !in job.rawSeconds
  }

  lemma PathsHaveNoNewline(dir: string, title: string, i: nat)
    requires '\n' !in dir && '\n' !in title
    ensures '\n' !in ClipPath(dir, title) && '\n' !in WavPath(dir, title) && '\n' !in BlankPath(dir)
    ensures '\n' !in CropPath(dir, title, i) && '\n' !in ScalePath(dir, title, i)
    ensures '\n' !in MergePath(dir, title, i) && '\n' !in MergeBase(dir, title, i)
  {
    IndexHasNoNewline(i);
    if i > 0 { IndexHasNoNewline(i - 1); }
  }

  lemma TrimHasNoNewline(path: string, start: string, duration: string, clip: string)
    requires '\n' !in path && '\n' !in start && '\n' !in duration && '\n' !in clip
    ensures '\n' !in TrimCommand(path, start, duration, clip)
  {
  }

  lemma WavHasNoNewline(clip: string, wav: string)
    requires '\n' !in clip && '\n' !in wav
    ensures '\n' !in WavCommand(clip, wav)
  {
  }

  lemma LavfiHasNoNewline(filter: string)
    requires '\n' !in filter
    ensures '\n' !in LavfiInput(filter)
  {
  }

  lemma CanvasHasNoNewline(size: Size, rawSeconds: string)
    requires '\n' !in rawSeconds
    ensures '\n' !in CanvasInput(size, rawSeconds)
  {
    NumberHasNoNewline(size.width);
    NumberHasNoNewline(size.height);
    LavfiHasNoNewline("color=c=black:s=" + IntToString(size.width) + "x" + IntToString(size.height)
                      + ":r=30000/1001:d=" + rawSeconds);
  }

  lemma SilenceHasNoNewline(duration: string)
    requires '\n' !in duration
    ensures '\n' !in SilenceInput(duration)
  {
    LavfiHasNoNewline("aevalsrc=0|0:c=stereo:s=44100:d=" + duration);
  }

  lemma BlankHasNoNewline(size: Size, rawSeconds: string, duration: string, blank: string)
    requires '\n' !in rawSeconds && '\n' !in duration && '\n' !in blank
    ensures '\n' !in BlankCommand(size, rawSeconds, duration, blank)
  {
    CanvasHasNoNewline(size, rawSeconds);
    SilenceHasNoNewline(duration);
  }

  lemma CropHasNoNewline(clip: string, source: Rect, cropPath: string)
    requires '\n' !in clip && '\n' !in cropPath
    ensures '\n' !in CropCommand(clip, source, cropPath)
  {
    RectHasNoNewline(source);
  }

  lemma ScaleHasNoNewline(cropPath: string, draw: Rect, scalePath: string)
    requires '\n' !in cropPath && '\n' !in scalePath
    ensures '\n' !in ScaleCommand(cropPath, draw, scalePath)
  {
    RectHasNoNewline(draw);
  }

  lemma OverlayHasNoNewline(basePath: string, scalePath: string, draw: Rect, mergePath: string)
    requires '\n' !in basePath && '\n' !in scalePath && '\n' !in mergePath
    ensures '\n' !in OverlayCommand(basePath, scalePath, draw, mergePath)
  {
    RectHasNoNewline(draw);
  }

  lemma {:induction false} HeaderHasNoNewline(job: Job)
    requires SingleLineJob(job)
    ensures NoneContains(HeaderLines(job), '\n')
  {
    var dir, title := job.dir, job.title;
    PathsHaveNoNewline(dir, title, 0);
    var H := HeaderLines(job);
    assert |H| == 5;
    TrimHasNoNewline(job.path, job.start, job.duration, ClipPath(dir, title));
    WavHasNoNewline(ClipPath(dir, title), WavPath(dir, title));
    BlankHasNoNewline(job.preview.size, job.rawSeconds, job.duration, BlankPath(dir));
  }

  lemma {:induction false} CropBlockHasNoNewline(job: Job)
    requires SingleLineJob(job)
    ensures NoneContains(CropBlockLines(job), '\n')
  {
    var C := CropBlockLines(job);
    forall i | 0 <= i < |C| ensures '\n' !in C[i] {
      if job.preview.crops != [] {
        PathsHaveNoNewline(job.dir, job.title, i);
        CropHasNoNewline(ClipPath(job.dir, job.title), job.preview.crops[i].source, CropPath(job.dir, job.title, i));
      }
    }
  }

  lemma MergeLinesHaveNoNewline(dir: string, title: string, crops: seq<Crop>, i: nat)
    requires i < |crops|
    requires '\n' !in dir && '\n' !in title
    ensures NoneContains(MergeLines(dir, title, crops, i), '\n')
  {
    PathsHaveNoNewline(dir, title, i);
    ScaleHasNoNewline(CropPath(dir, title, i), crops[i].draw, ScalePath(dir, title, i));
    OverlayHasNoNewline(MergeBase(dir, title, i), ScalePath(dir, title, i), crops[i].draw, MergePath(dir, title, i));
  }

  lemma {:induction false} MergeBlockHasNoNewline(job: Job)
    requires SingleLineJob(job)
    ensures NoneContains(MergeBlock(job), '\n')
  {
    var dir, title, crops := job.dir, job.title, job.preview.crops;
    if crops != [] {
      var pairs := MergePairs(dir, title, crops);
      forall i | 0 <= i < |pairs| ensures NoneContains(pairs[i], '\n') {
        MergeLinesHaveNoNewline(dir, title, crops, i);
      }
      FlattenNoneContains(pairs, '\n');
    }
  }

  lemma {:induction false} MemoBlockHasNoNewline(memo: string)
    ensures NoneContains(MemoLines(memo), '\n')
  {
    SplitHasNoSeparator(memo, '\n');
  }

  /** No line of the script holds a line break when the job's texts hold none. */
  lemma {:induction false} LinesHaveNoNewline(job: Job)
    requires SingleLineJob(job)
    ensures NoneContains(ScriptLines(job), '\n')
  {
    var H, C, M, N := HeaderLines(job), CropBlockLines(job), MergeBlock(job), MemoLines(job.memo);
    HeaderHasNoNewline(job);
    CropBlockHasNoNewline(job);
    MergeBlockHasNoNewline(job);
    MemoBlockHasNoNewline(job.memo);
    NoneContainsAppend(H, C, '\n');
    NoneContainsAppend(H + C, M, '\n');
    NoneContainsAppend(H + C + M, N, '\n');
    NoneContainsAppend(H + C + M + N, ["", ""], '\n');
  }

  /** The texts of a job hold no line break when its inputs hold none. */
  lemma CutJobIsSingleLine(env: Option<string>, renderNumber: real -> string,
                           path: string, startTime: real, endTime: real,
                           title: string, memo: string, preview: Preview)
    requires (env.Some? ==> '\n' !in env.value) && '\n' !in path && '\n' !in title
    requires '\n' !in renderNumber(DurationSeconds(startTime, endTime))
    ensures SingleLineJob(CutJob(env, renderNumber, path, startTime, endTime, title, memo, preview))
  {
    var seconds := DurationSeconds(startTime, endTime);
    PreciseTextCharacters(startTime);
    PreciseTextCharacters(seconds);
    var start, duration := ConvertMilliSecondsTimeToText(startTime), ConvertMilliSecondsTimeToText(seconds);
    OutputDirHasNoNewline(env, path);
    var job := Job(OutputDirPath(OutputTargetDirPath(env), path), path, title, memo, preview,
                   start, duration, renderNumber(seconds));
    assert SingleLineJob(job);
    assert CutJob(env, renderNumber, path, startTime, endTime, title, memo, preview) == job;
  }

  /** The output directory is one line when the environment's value and the path are. */
  lemma OutputDirHasNoNewline(env: Option<string>, path: string)
    requires (env.Some? ==> '\n' !in env.value) && '\n' !in path
    ensures '\n' !in OutputDirPath(OutputTargetDirPath(env), path)
  {
    MovieNameHasNoNewline(path);
    assert '\n' !in OutputTargetDirPath(env);
  }

  /**
   * When the environment's output root, the path, the title and the printed duration hold no
   * line break, splitting the script at line breaks gives exactly its lines.
   */
  lemma {:induction false} ScriptSplitsIntoLines(env: Option<string>, renderNumber: real -> string,
                                                 path: string, startTime: real, endTime: real,
                                                 title: string, memo: string, preview: Preview)
    requires (env.Some? ==> '\n' !in env.value) && '\n' !in path && '\n' !in title
    requires '\n' !in renderNumber(DurationSeconds(startTime, endTime))
    ensures Split(ConvertTimeToCutCommand(env, renderNumber, path, startTime, endTime, title, memo, preview), '\n')
         == ScriptLines(CutJob(env, renderNumber, path, startTime, endTime, title, memo, preview))
  {
    var job := CutJob(env, renderNumber, path, startTime, endTime, title, memo, preview);
    CutJobIsSingleLine(env, renderNumber, path, startTime, endTime, title, memo, preview);
    LinesHaveNoNewline(job);
    ScriptIsItsLines(env, renderNumber, path, startTime, endTime, title, memo, preview);
    assert |ScriptLines(job)| >= 1;
    SplitJoin(ScriptLines(job), '\n');
  }
}
