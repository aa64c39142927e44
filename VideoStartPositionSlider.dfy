/**
 * The slider that places the trim start within the whole video
 * (src/components/VideoStartPositionSlider.tsx): its marks and its change
 * handler.
 */
module VideoStartPositionSlider {
  import opened FormatTime
  import opened SliderMarks

  /** `durationMarksMapping`: videos under a minute get a mark every 10 s, and so on up to 3 h. */
  const PositionStepTable: seq<StepRow> :=
    [ StepRow(60.0, 10.0), StepRow(300.0, 60.0), StepRow(600.0, 120.0),
      StepRow(1800.0, 300.0), StepRow(3600.0, 600.0), StepRow(10800.0, 1800.0) ]

  /** The spacing of the marks for a video of the given length: at least 10 seconds. */
  function PositionStep(duration: real): (step: real)
    ensures step >= 10.0
  {
    StepFor(PositionStepTable, duration)
  }

  /**
   * `calculateMarks`: a mark every step from zero while short of the
   * duration, each labelled with its time as `H:MM:SS`.
   */
  method CalculateMarks(duration: real) returns (marks: seq<Mark>)
    ensures IsStepMarks(marks, 0.0, duration, PositionStep(duration), ConvertTimeToText)
  {
    var step := PositionStep(duration);
    marks := StepMarks(0.0, duration, step, ConvertTimeToText);
  }

  /** Each mark sits at the time its label shows, and before the end of the video. */
  lemma MarksShowTheirTime(marks: seq<Mark>, duration: real, k: nat)
    requires IsStepMarks(marks, 0.0, duration, PositionStep(duration), ConvertTimeToText)
    requires k < |marks|
    ensures marks[k].text == ConvertTimeToText(marks[k].value)
    ensures 0.0 <= marks[k].value < duration
  {
    StepMarkAt(marks, 0.0, duration, PositionStep(duration), ConvertTimeToText, k);
    assert marks[k].value - 0.0 == marks[k].value;
  }

  /** A video without a positive length, such as the `-1` of a video not yet loaded, has no marks. */
  lemma NoMarksWithoutDuration(marks: seq<Mark>, duration: real)
    requires IsStepMarks(marks, 0.0, duration, PositionStep(duration), ConvertTimeToText)
    ensures |marks| == 0 <==> duration <= 0.0
  {
    FirstStepMark(marks, 0.0, duration, PositionStep(duration), ConvertTimeToText);
  }

  /** A 2-minute video gets a mark every minute. */
  lemma PositionStepExample()
    ensures PositionStep(120.0) == 60.0
  {
  }

  /** The table's steps grow with its bounds, so longer videos never get finer marks. */
  lemma PositionStepGrows(shorter: real, longer: real)
    requires shorter <= longer
    ensures PositionStep(shorter) <= PositionStep(longer)
  {
    StepGrowsWithDuration(PositionStepTable, shorter, longer);
  }

  /** `handleChangeRange`: pass a single value through as the new start; ignore arrays. */
  function HandleChangeRange(newValue: SliderValue): (newStartTime: Option<real>)
    ensures newValue.Pair? ==> newStartTime == None
    ensures newValue.Single? ==> newStartTime == Some(newValue.value)
  {
    match newValue
    case Single(v) => Some(v)
    case Pair(_, _) => None
  }
}
