/**
 * The trim-range slider (src/components/VideoClipSlider.tsx): the marks
 * laid out under the trim range, the handler that turns a thumb move into
 * an ordered range, and the slider's bounds.
 */
module VideoClipSlider {
  import opened FormatTime
  import opened SliderMarks

  /** How far before the trim start the slider begins. */
  const StartTimeSpace: real := 5.0
  /** How far past the trim end the slider reaches. */
  const EndTimeSpace: real := 20.0

  /** `durationMarksMapping`: clips under 30 s get a mark every 5 s, and so on up to 3 h. */
  const TrimStepTable: seq<StepRow> :=
    [ StepRow(30.0, 5.0), StepRow(60.0, 10.0), StepRow(300.0, 30.0), StepRow(600.0, 60.0),
      StepRow(1800.0, 300.0), StepRow(3600.0, 600.0), StepRow(10800.0, 1800.0) ]

  /** The spacing of the trim marks for a clip of the given length: at least 5 seconds. */
  function TrimStep(duration: real): (step: real)
    ensures step >= 5.0
  {
    StepFor(TrimStepTable, duration)
  }

  /**
   * `calculateTrimMarks`: from the start, a mark every step while short of
   * `end + 20`, each labelled with its offset from the start in short form.
   */
  method CalculateTrimMarks(startTime: real, endTime: real) returns (marks: seq<Mark>)
    ensures IsStepMarks(marks, startTime, endTime + EndTimeSpace, TrimStep(endTime - startTime),
                        ConvertTimeToShortText)
  {
    var duration := endTime - startTime;
    var step := TrimStep(duration);
    marks := StepMarks(startTime, endTime + EndTimeSpace, step, ConvertTimeToShortText);
  }

  /** When the range is not empty the first mark sits at the start, labelled `0:00`. */
  lemma FirstTrimMark(marks: seq<Mark>, startTime: real, endTime: real)
    requires IsStepMarks(marks, startTime, endTime + EndTimeSpace, TrimStep(endTime - startTime),
                         ConvertTimeToShortText)
    requires startTime < endTime + EndTimeSpace
    ensures |marks| >= 1 && marks[0] == Mark(startTime, "0:00")
  {
    FirstStepMark(marks, startTime, endTime + EndTimeSpace, TrimStep(endTime - startTime), ConvertTimeToShortText);
    ShortTextAtZero();
  }

  /** Every mark lies in `[start, end + 20)` and shows its offset from the start in short form. */
  lemma TrimMarkAt(marks: seq<Mark>, startTime: real, endTime: real, k: nat)
    requires IsStepMarks(marks, startTime, endTime + EndTimeSpace, TrimStep(endTime - startTime),
                         ConvertTimeToShortText)
    requires k < |marks|
    ensures marks[k].text == ConvertTimeToShortText(marks[k].value - startTime)
    ensures startTime <= marks[k].value < endTime + EndTimeSpace
  {
    StepMarkAt(marks, startTime, endTime + EndTimeSpace, TrimStep(endTime - startTime), ConvertTimeToShortText, k);
  }

  /** The trim marks strictly increase. */
  lemma TrimMarksIncrease(marks: seq<Mark>, startTime: real, endTime: real, i: nat, j: nat)
    requires IsStepMarks(marks, startTime, endTime + EndTimeSpace, TrimStep(endTime - startTime),
                         ConvertTimeToShortText)
    requires i < j < |marks|
    ensures marks[i].value < marks[j].value
  {
    StepMarksIncrease(marks, startTime, endTime + EndTimeSpace, TrimStep(endTime - startTime),
                      ConvertTimeToShortText, i, j);
  }

  lemma ShortTextAtZero()
    ensures ConvertTimeToShortText(0.0) == "0:00"
  {
    assert Decompose(0.0) == Clock(0, 0, 0);
  }

  /** A 45-second clip gets a mark every 10 seconds. */
  lemma TrimStepExample()
    ensures TrimStep(45.0) == 10.0
  {
  }

  /** The trim table's steps grow with its bounds, so longer clips never get finer marks. */
  lemma TrimStepGrows(shorter: real, longer: real)
    requires shorter <= longer
    ensures TrimStep(shorter) <= TrimStep(longer)
  {
    StepGrowsWithDuration(TrimStepTable, shorter, longer);
  }

  // ---------------------------------------------------------------------
  // The change handler and the bounds

  /** The arguments `changeCallback` receives. */
  datatype RangeChange = RangeChange(newStartTime: real, newEndTime: real, isStart: bool)

  /** `handleChange`: ignore a single value; otherwise report the two values in order. */
  function HandleChange(newValue: SliderValue, activeThumb: int): (r: Option<RangeChange>)
    ensures newValue.Single? <==> r.None?
    ensures r.Some? ==> r.value.newStartTime <= r.value.newEndTime
    ensures r.Some? ==>
      multiset{r.value.newStartTime, r.value.newEndTime} == multiset{newValue.first, newValue.second}
    ensures r.Some? ==> (r.value.isStart <==> activeThumb == 0)
  {
    match newValue
    case Single(_) => None
    case Pair(first, second) =>
      var isStart := activeThumb == 0;
      if first < second then Some(RangeChange(first, second, isStart))
      else Some(RangeChange(second, first, isStart))
  }

  /** The reported range does not depend on which thumb's value comes first. */
  lemma HandleChangeIgnoresOrder(first: real, second: real, activeThumb: int)
    ensures HandleChange(Pair(first, second), activeThumb) == HandleChange(Pair(second, first), activeThumb)
  {
  }

  /** The slider's lower end: five seconds before the start, but never below zero. */
  function SliderMin(startTime: real): (min: real)
    ensures min >= 0.0 && min >= startTime - StartTimeSpace
    ensures min == 0.0 || min == startTime - StartTimeSpace
  {
    if startTime - StartTimeSpace > 0.0 then startTime - StartTimeSpace else 0.0
  }

  /** The slider's upper end: twenty seconds after the end, but never past the video. */
  function SliderMax(endTime: real, duration: real): (max: real)
    ensures max <= duration && max <= endTime + EndTimeSpace
    ensures max == duration || max == endTime + EndTimeSpace
  {
    if endTime + EndTimeSpace < duration then endTime + EndTimeSpace else duration
  }

  /** A trim range inside the video lies inside the slider. */
  lemma RangeInsideSlider(startTime: real, endTime: real, duration: real)
    requires 0.0 <= startTime <= endTime <= duration
    ensures SliderMin(startTime) <= startTime && endTime <= SliderMax(endTime, duration)
  {
  }
}
