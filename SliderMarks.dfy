/**
 * What the two sliders share: a labelled mark, and the lookup in a table
 * of duration bounds that picks the spacing of the marks (an hour when no
 * row applies)
 * (src/components/VideoClipSlider.tsx and
 * src/components/VideoStartPositionSlider.tsx).
 */
module SliderMarks {
  import opened FormatTime

  /** A labelled tick on a slider: its position in seconds and its label (`label` is a Dafny keyword). */
  datatype Mark = Mark(value: real, text: string)

  /** What MUI passes to `onChange`: one number, or the two thumbs' values. */
  datatype SliderValue = Single(value: real) | Pair(first: real, second: real)

  /** A row of a step table: durations below `bound` get marks every `step` seconds. */
  datatype StepRow = StepRow(bound: real, step: real)

  /** The step used when no row's bound exceeds the duration: one hour. */
  const DefaultStep: real := 3600.0

  /** `find`: the index of the first row whose bound exceeds `duration`, if any. */
  function FindRow(table: seq<StepRow>, duration: real): (r: Option<nat>)
    ensures r.Some? ==> r.value < |table| && duration < table[r.value].bound
    ensures r.Some? ==> forall j :: 0 <= j < r.value ==> duration >= table[j].bound
    ensures r.None? ==> forall j :: 0 <= j < |table| ==> duration >= table[j].bound
  {
    if |table| == 0 then None
    else if duration < table[0].bound then Some(0)
    else match FindRow(table[1..], duration)
      case None => None
      case Some(i) => Some(i + 1)
  }

  /** `?.step || 3600`: the found row's step, or an hour when none is found or its step is zero. */
  function StepFor(table: seq<StepRow>, duration: real): (step: real)
    ensures (forall j :: 0 <= j < |table| ==> table[j].step > 0.0) ==> step > 0.0
  {
    match FindRow(table, duration)
    case None => DefaultStep
    case Some(i) => if table[i].step != 0.0 then table[i].step else DefaultStep
  }

  /** Every step of the table is positive. */
  predicate PositiveSteps(table: seq<StepRow>)
  {
    forall j :: 0 <= j < |table| ==> table[j].step > 0.0
  }

  /** Bounds and steps both grow down the table. */
  predicate Ascending(table: seq<StepRow>)
  {
    forall i, j :: 0 <= i < j < |table| ==> table[i].bound <= table[j].bound && table[i].step <= table[j].step
  }

  /**
   * For a table whose bounds and positive steps both grow and whose steps
   * stay within an hour, a longer duration never gets a finer step.
   */
  lemma StepGrowsWithDuration(table: seq<StepRow>, shorter: real, longer: real)
    requires Ascending(table) && PositiveSteps(table)
    requires forall j :: 0 <= j < |table| ==> table[j].step <= DefaultStep
    requires shorter <= longer
    ensures StepFor(table, shorter) <= StepFor(table, longer)
  {
  }

  // ---------------------------------------------------------------------
  // Laying marks out at a fixed step

  /**
   * The marks both sliders lay out: one every `step` seconds from `origin`
   * while short of `limit`, mark `k` labelled with `labelOf` of its offset
   * `k * step` from the origin.
   */
  predicate IsStepMarks(marks: seq<Mark>, origin: real, limit: real, step: real, labelOf: real -> string)
  {
    && (forall k :: 0 <= k < |marks| ==>
          marks[k] == Mark(origin + k as real * step, labelOf(k as real * step)))
    && (forall k :: 0 <= k < |marks| ==> marks[k].value < limit)
    && origin + |marks| as real * step >= limit
  }

  /**
   * The loop of both mark generators: from `origin`, push a mark and move
   * on by `step` while the position is short of `limit`.
   */
  method StepMarks(origin: real, limit: real, step: real, labelOf: real -> string) returns (marks: seq<Mark>)
    requires step > 0.0
    ensures IsStepMarks(marks, origin, limit, step, labelOf)
  {
    marks := [];
    var time := origin;
    while time < limit
      invariant time == origin + |marks| as real * step
      invariant forall k :: 0 <= k < |marks| ==>
        marks[k] == Mark(origin + k as real * step, labelOf(k as real * step))
      invariant forall k :: 0 <= k < |marks| ==> marks[k].value < limit
      decreases ((limit - time) / step).Floor
    {
      ghost var n, before := |marks|, marks;
      assert time - origin == n as real * step;
      marks := marks + [Mark(time, labelOf(time - origin))];
      forall k | 0 <= k < |marks|
        ensures marks[k] == Mark(origin + k as real * step, labelOf(k as real * step))
      {
        if k < n {
          assert marks[k] == before[k];
        } else {
          assert k == n && time - origin == k as real * step && time == origin + k as real * step;
          assert marks[k] == Mark(time, labelOf(time - origin));
        }
      }
      NextMultiple(origin, step, |marks| - 1);
      FewerSteps(limit - time, step);
      time := time + step;
    }
  }

  /** Moving on by one step leaves one step fewer to the limit. */
  lemma FewerSteps(d: real, step: real)
    requires step > 0.0
    ensures (d - step) / step == d / step - 1.0
  {
    var q, r := d / step, (d - step) / step;
    assert q * step == d && r * step == d - step;
    var e := r - (q - 1.0);
    assert e * step == 0.0;
    assert e == (e * step) / step;
  }

  /** One step further is one more multiple of the step. */
  lemma NextMultiple(base: real, step: real, n: nat)
    ensures base + n as real * step + step == base + (n + 1) as real * step
  {
  }

  /** Multiples of a positive step grow with the multiplier. */
  lemma MultiplesIncrease(step: real, i: nat, j: nat)
    requires step > 0.0 && i < j
    ensures i as real * step < j as real * step
  {
    assert j as real * step - i as real * step == (j - i) as real * step;
  }

  /** The description fixes the marks: at most one list meets it. */
  lemma StepMarksAreUnique(a: seq<Mark>, b: seq<Mark>, origin: real, limit: real,
                                              step: real, labelOf: real -> string)
    requires IsStepMarks(a, origin, limit, step, labelOf) && IsStepMarks(b, origin, limit, step, labelOf)
    ensures a == b
  {
    assert |a| < |b| ==> b[|a|].value < limit;
    assert |b| < |a| ==> a[|b|].value < limit;
  }

  /** With a positive step the marks strictly increase. */
  lemma StepMarksIncrease(marks: seq<Mark>, origin: real, limit: real, step: real, labelOf: real -> string,
                          i: nat, j: nat)
    requires IsStepMarks(marks, origin, limit, step, labelOf) && step > 0.0
    requires i < j < |marks|
    ensures marks[i].value < marks[j].value
  {
    MultiplesIncrease(step, i, j);
  }

  /** There is a first mark, at the origin, exactly when the origin is short of the limit. */
  lemma FirstStepMark(marks: seq<Mark>, origin: real, limit: real, step: real, labelOf: real -> string)
    requires IsStepMarks(marks, origin, limit, step, labelOf)
    ensures |marks| >= 1 <==> origin < limit
    ensures |marks| >= 1 ==> marks[0] == Mark(origin, labelOf(0.0))
  {
    if |marks| >= 1 {
      assert marks[0].value == origin;
    }
  }

  /** Each mark lies in `[origin, limit)` and is labelled with its offset from the origin. */
  lemma StepMarkAt(marks: seq<Mark>, origin: real, limit: real, step: real, labelOf: real -> string, k: nat)
    requires IsStepMarks(marks, origin, limit, step, labelOf) && step > 0.0
    requires k < |marks|
    ensures marks[k].text == labelOf(marks[k].value - origin)
    ensures origin <= marks[k].value < limit
  {
    assert marks[k] == Mark(origin + k as real * step, labelOf(k as real * step));
    if k > 0 { MultiplesIncrease(step, 0, k); }
  }
}
