/**
 * The trigger gesture of `vaaac::update`: the aim point travels up the image
 * (its row number falls) by a distance within a window of the frame size, then
 * comes back down near where it started. The points seen since the start of
 * the gesture are kept in `yxDelta`, their count in `yxDeltaSize`, and
 * `increment` says whether the upward travel is still going on.
 */
module Trigger {
  import opened Wrappers
  import opened Geometry

  /** An entry of `yxDelta`: `first` is the row, `second` the column of an aim point. */
  datatype YX = YX(y: int, x: int)

  /** `yxDelta`, `yxDeltaSize` and `increment`. */
  datatype Window = Window(points: seq<YX>, size: int, increment: bool)

  /** The state the constructor leaves. */
  const START: Window := Window([], 0, true)

  /** The upward travel that can start a trigger, at least and at most, in percent of the frame side. */
  const TRIGGER_MINIMUM_DISTANCE: int := 3
  const TRIGGER_MAXIMUM_DISTANCE: int := 15
  /** How far, in percent of the frame side, the end of the gesture may lie from its start, by row and by column. */
  const TRIGGER_ALLOWED_Y_DEVIATION: int := 3
  const TRIGGER_ALLOWED_X_DEVIATION: int := 2

  /** The four `TRIGGER_..._PIXELS` members. */
  datatype Thresholds = Thresholds(minDistance: int, maxDistance: int, yDeviation: int, xDeviation: int)

  /**
   * `percent * res / 100.0` stored in an `int`. The percentages are whole numbers,
   * so the double quotient is within rounding of the exact one and truncating it
   * gives the truncated integer quotient.
   */
  function PixelsOf(percent: int, res: int): (px: int)
    ensures 0 <= percent && 0 <= res ==> 0 <= 100 * px <= percent * res < 100 * px + 100
  {
    TruncDiv(percent * res, 100)
  }

  /** The thresholds the constructor derives from `res`: 3 %, 15 %, 3 % and 2 % of it. */
  function ThresholdsFor(res: int): (th: Thresholds)
    ensures res >= 0 ==> 0 <= th.minDistance <= th.maxDistance
    ensures res >= 0 ==> 0 <= th.xDeviation <= th.yDeviation == th.minDistance
    ensures res >= 0 ==> 100 * th.maxDistance <= 15 * res < 100 * (th.maxDistance + 1)
    ensures res >= 0 ==> th == Thresholds(3 * res / 100, 15 * res / 100, 3 * res / 100, 2 * res / 100)
  {
    Thresholds(PixelsOf(TRIGGER_MINIMUM_DISTANCE, res), PixelsOf(TRIGGER_MAXIMUM_DISTANCE, res),
               PixelsOf(TRIGGER_ALLOWED_Y_DEVIATION, res), PixelsOf(TRIGGER_ALLOWED_X_DEVIATION, res))
  }

  /** What one frame of the state machine yields: the new window, `triggered`, and the aim point. */
  datatype Outcome = Outcome(window: Window, triggered: bool, aim: YX)

  /** `yxDelta[0]` and `yxDelta[yxDeltaSize - 1]` are in range whenever `yxDeltaSize` is non-zero. */
  predicate Indexable(w: Window)
  {
    w.size == 0 || 0 < w.size <= |w.points|
  }

  /** `yxDeltaSize` counts `yxDelta`. */
  predicate WellSized(w: Window)
  {
    w.size == |w.points|
  }

  function Abs(a: int): int
  {
    if a < 0 then -a else a
  }

  /**
   * The state machine as lines 210-244 of `vaaac.cpp` write it. On a trigger
   * attempt (the point comes down again) the points are cleared but
   * `yxDeltaSize` keeps its value.
   */
  function StepAsWritten(w: Window, s: YX, th: Thresholds): (r: Outcome)
    requires Indexable(w)
    ensures !r.triggered ==> r.aim == s
  {
    if w.size == 0 then Outcome(Window(w.points + [s], 1, w.increment), false, s)
    else if w.increment then
      if s.y <= w.points[w.size - 1].y then Outcome(Window(w.points + [s], w.size + 1, true), false, s)
      else
        var travel := w.points[0].y - w.points[w.size - 1].y;
        if th.minDistance <= travel <= th.maxDistance then Outcome(w.(increment := false), false, s)
        else Outcome(Window([], 0, w.increment), false, s)
    else
      if s.y >= w.points[w.size - 1].y then Outcome(Window(w.points + [s], w.size + 1, false), false, s)
      else
        var left, right := w.points[0], w.points[w.size - 1];
        var ok := Abs(left.y - right.y) <= th.yDeviation && Abs(left.x - right.x) <= th.xDeviation;
        Outcome(Window([], w.size, true), ok, if ok then left else s)
  }

  /**
   * The state machine with `yxDeltaSize` reset together with `yxDelta` when a
   * trigger attempt ends, as the reset at lines 222-223 does. Every other branch
   * is the one written.
   */
  function Step(w: Window, s: YX, th: Thresholds): (r: Outcome)
    requires Indexable(w)
    ensures WellSized(w) ==> WellSized(r.window)
    ensures !r.triggered ==> r.aim == s
    ensures r.triggered ==> !w.increment && 0 < w.size && r.window == START && r.aim == w.points[0]
  {
    if w.size == 0 then Outcome(Window(w.points + [s], 1, w.increment), false, s)
    else if w.increment then
      if s.y <= w.points[w.size - 1].y then Outcome(Window(w.points + [s], w.size + 1, true), false, s)
      else
        var travel := w.points[0].y - w.points[w.size - 1].y;
        if th.minDistance <= travel <= th.maxDistance then Outcome(w.(increment := false), false, s)
        else Outcome(Window([], 0, w.increment), false, s)
    else
      if s.y >= w.points[w.size - 1].y then Outcome(Window(w.points + [s], w.size + 1, false), false, s)
      else
        var left, right := w.points[0], w.points[w.size - 1];
        var ok := Abs(left.y - right.y) <= th.yDeviation && Abs(left.x - right.x) <= th.xDeviation;
        Outcome(START, ok, if ok then left else s)
  }

  /** While the point goes up, the rows of the kept points never increase. */
  ghost predicate NonIncreasing(points: seq<YX>)
  {
    forall i, j :: 0 <= i < j < |points| ==> points[j].y <= points[i].y
  }

  /** The rows of the kept points first fall and then rise: no point lies below both a point before it and one after it. */
  ghost predicate Valley(points: seq<YX>)
  {
    forall i, j, k :: 0 <= i < j < k < |points| ==> points[j].y <= points[i].y || points[j].y <= points[k].y
  }

  /** Some kept point lies between `minDistance` and `maxDistance` rows above the first one. */
  ghost predicate DeepEnough(points: seq<YX>, th: Thresholds)
  {
    exists j :: 0 <= j < |points| && th.minDistance <= points[0].y - points[j].y <= th.maxDistance
  }

  /**
   * The shape of the window between frames: while rising, the points are a
   * non-increasing run; once the top has been passed, they form a valley whose
   * upward travel was within the thresholds.
   */
  ghost predicate Shape(w: Window, th: Thresholds)
  {
    && WellSized(w)
    && (w.increment ==> NonIncreasing(w.points))
    && (!w.increment ==> |w.points| > 0 && Valley(w.points) && DeepEnough(w.points, th))
  }

  lemma AppendNonIncreasing(points: seq<YX>, s: YX)
    requires NonIncreasing(points) && |points| > 0 && s.y <= points[|points| - 1].y
    ensures NonIncreasing(points + [s])
  {
    var ps := points + [s];
    forall i, j | 0 <= i < j < |ps|
      ensures ps[j].y <= ps[i].y
    {
      if j == |points| {
        assert ps[j] == s;
        assert points[|points| - 1].y <= points[i].y || i == |points| - 1;
      }
    }
  }

  lemma AppendValley(points: seq<YX>, s: YX)
    requires Valley(points) && |points| > 0 && s.y >= points[|points| - 1].y
    ensures Valley(points + [s])
  {
    var ps := points + [s];
    var last := |points| - 1;
    forall i, j, k | 0 <= i < j < k < |ps|
      ensures ps[j].y <= ps[i].y || ps[j].y <= ps[k].y
    {
      if k == |points| && j < last {
        assert ps[j] == points[j] && ps[i] == points[i];
        assert points[j].y <= points[i].y || points[j].y <= points[last].y;
      }
    }
  }

  lemma AppendDeepEnough(points: seq<YX>, s: YX, th: Thresholds)
    requires DeepEnough(points, th)
    ensures DeepEnough(points + [s], th)
  {
    var j :| 0 <= j < |points| && th.minDistance <= points[0].y - points[j].y <= th.maxDistance;
    assert (points + [s])[j] == points[j] && (points + [s])[0] == points[0];
  }

  /** The corrected state machine keeps the window's shape, so its reads stay in range from frame to frame. */
  lemma StepKeepsShape(w: Window, s: YX, th: Thresholds)
    requires Shape(w, th)
    ensures Indexable(w)
    ensures Shape(Step(w, s, th).window, th)
  {
    var r := Step(w, s, th).window;
    if w.size == 0 {
      assert r.points == [s];
    } else if w.increment {
      if s.y <= w.points[w.size - 1].y {
        AppendNonIncreasing(w.points, s);
      } else if th.minDistance <= w.points[0].y - w.points[w.size - 1].y <= th.maxDistance {
        assert DeepEnough(w.points, th) by {
          assert th.minDistance <= w.points[0].y - w.points[w.size - 1].y <= th.maxDistance;
        }
      }
    } else if s.y >= w.points[w.size - 1].y {
      AppendValley(w.points, s);
      AppendDeepEnough(w.points, s, th);
    }
  }

  /**
   * A trigger fires only at the end of a full gesture: the point had risen by a
   * travel within the thresholds, has now dropped below the last kept point,
   * and that last point is within the allowed deviation of where the gesture
   * began; the aim then jumps back to that beginning.
   */
  lemma TriggerNeedsGesture(w: Window, s: YX, th: Thresholds)
    requires Shape(w, th)
    requires Step(w, s, th).triggered
    ensures |w.points| > 0 && !w.increment
    ensures DeepEnough(w.points, th) && Valley(w.points)
    ensures var first, last := w.points[0], w.points[|w.points| - 1];
      && s.y < last.y
      && Abs(first.y - last.y) <= th.yDeviation && Abs(first.x - last.x) <= th.xDeviation
      && Step(w, s, th).aim == first
  {
  }

  /** The trigger condition is exact: a drop after a deep enough rise fires precisely when the ends match. */
  lemma TriggerExactly(w: Window, s: YX, th: Thresholds)
    requires Shape(w, th) && !w.increment
    requires s.y < w.points[|w.points| - 1].y
    ensures var first, last := w.points[0], w.points[|w.points| - 1];
      Step(w, s, th).triggered <==>
        Abs(first.y - last.y) <= th.yDeviation && Abs(first.x - last.x) <= th.xDeviation
    ensures Step(w, s, th).window == START
  {
  }

  /** A rise that ends outside the thresholds throws the gesture away. */
  lemma WrongTravelResets(w: Window, s: YX, th: Thresholds)
    requires Shape(w, th) && w.increment && |w.points| > 0
    requires s.y > w.points[|w.points| - 1].y
    requires !(th.minDistance <= w.points[0].y - w.points[|w.points| - 1].y <= th.maxDistance)
    ensures Step(w, s, th) == Outcome(START, false, s)
  {
  }

  /**
   * The first frame that comes back down after a rise within the thresholds
   * only ends the rise: the kept points stay as they are and the new point is
   * not added.
   */
  lemma PeakKeepsWindow(w: Window, s: YX, th: Thresholds)
    requires Indexable(w) && w.increment && 0 < w.size
    requires s.y > w.points[w.size - 1].y
    requires th.minDistance <= w.points[0].y - w.points[w.size - 1].y <= th.maxDistance
    ensures Step(w, s, th) == Outcome(w.(increment := false), false, s)
    ensures Step(w, s, th).window.points == w.points && Step(w, s, th).window.size == w.size
  {
  }

  /** Both state machines agree on every window that no trigger attempt has yet ended in. */
  lemma StepsAgreeBeforeClose(w: Window, s: YX, th: Thresholds)
    requires Indexable(w)
    requires w.increment || w.size == 0 || s.y >= w.points[w.size - 1].y
    ensures StepAsWritten(w, s, th) == Step(w, s, th)
  {
  }

  /**
   * On a frame that ends an attempt, the two machines trigger alike and aim
   * alike, and their windows differ only in `yxDeltaSize`: the written one
   * keeps the old count, the corrected one resets it.
   */
  lemma CloseDiffersOnlyInSize(w: Window, s: YX, th: Thresholds)
    requires Indexable(w) && !w.increment && 0 < w.size
    requires s.y < w.points[w.size - 1].y
    ensures StepAsWritten(w, s, th).triggered == Step(w, s, th).triggered
    ensures StepAsWritten(w, s, th).aim == Step(w, s, th).aim
    ensures StepAsWritten(w, s, th).window == Step(w, s, th).window.(size := w.size)
    ensures Step(w, s, th).window.size == 0 && StepAsWritten(w, s, th).window.points == []
  {
  }

  /** Feeds the aim points of successive frames to a state machine. */
  function RunAsWritten(w: Window, samples: seq<YX>, th: Thresholds): Option<Window>
    decreases |samples|
  {
    if samples == [] then Some(w)
    else if !Indexable(w) then None
    else RunAsWritten(StepAsWritten(w, samples[0], th).window, samples[1..], th)
  }

  /**
   * For a 480-pixel frame: the point rises 20 rows, comes back 15 and drops
   * again, which fires; the window is left with `yxDeltaSize == 3` and no
   * points, so the next frame's `yxDelta[yxDeltaSize - 1]` is out of range.
   */
  lemma StaleSizeAfterTrigger()
    ensures var th := ThresholdsFor(480);
      var w := RunAsWritten(START, [YX(100, 10), YX(80, 10), YX(90, 10), YX(95, 10), YX(90, 10)], th);
      && w.Some? && !Indexable(w.value)
      && StepAsWritten(Window([YX(100, 10), YX(80, 10), YX(95, 10)], 3, false), YX(90, 10), th).triggered
  {
    var th := ThresholdsFor(480);
    assert th == Thresholds(14, 72, 14, 9);
    var w1 := StepAsWritten(START, YX(100, 10), th).window;
    assert w1 == Window([YX(100, 10)], 1, true);
    var w2 := StepAsWritten(w1, YX(80, 10), th).window;
    assert w2 == Window([YX(100, 10), YX(80, 10)], 2, true);
    var w3 := StepAsWritten(w2, YX(90, 10), th).window;
    assert w3 == Window([YX(100, 10), YX(80, 10)], 2, false);
    var w4 := StepAsWritten(w3, YX(95, 10), th).window;
    assert w4 == Window([YX(100, 10), YX(80, 10), YX(95, 10)], 3, false);
    var w5 := StepAsWritten(w4, YX(90, 10), th).window;
    assert w5 == Window([], 3, true);
    var samples := [YX(100, 10), YX(80, 10), YX(90, 10), YX(95, 10), YX(90, 10)];
    assert samples[1..][1..][1..][1..][1..] == [];
    assert RunAsWritten(START, samples, th) == Some(w5);
  }
}
