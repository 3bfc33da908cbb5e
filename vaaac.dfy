/**
 * The `vaaac` tracker object: the geometry its constructor derives from the
 * camera's frame size, and `update`, which finds the object under the reticle,
 * picks the aim point and runs the trigger gesture, frame after frame.
 */
module Vaaac {
  import opened Geometry
  import opened Tracker
  import opened TrackerProperties
  import Trigger

  /** What one call of `update` yields: `detected`, `triggered`, the aim point, the object's box, and the gesture window. */
  datatype Frame = Frame(detected: bool, triggered: bool, aim: Point, box: Box, window: Trigger.Window)

  /**
   * One frame of `update`, given the binarised mask: nothing happens unless the
   * reticle sees skin; then the search finds the aim point and the box, the
   * no-aim area snaps the point to the centre, and the gesture takes one step.
   */
  function Track(mask: Mask, res: int, halfRes: int, reticle: Rect, noAim: Rect, offsets: seq<(int, int)>,
                 th: Trigger.Thresholds, w: Trigger.Window): (r: Frame)
    requires IsSquare(mask, res) && InsideImage(reticle, res) && Trigger.Indexable(w)
    ensures r.detected <==> exists p: Point :: Contains(reticle, p) && mask[p.y][p.x]
    ensures !r.detected ==> !r.triggered && r.window == w
    ensures !r.detected ==> r.aim == Point(halfRes, halfRes) && r.box == ReticleBox(reticle)
  {
    if !AnyLit(mask, res, reticle) then Frame(false, false, Point(halfRes, halfRes), ReticleBox(reticle), w)
    else
      var found := Search(mask, res, halfRes, reticle, offsets);
      var aim := Snap(found.aim, noAim, halfRes);
      var o := Trigger.Step(w, Trigger.YX(aim.y, aim.x), th);
      Frame(true, o.triggered, Point(o.aim.x, o.aim.y), found.box, o.window)
  }

  /** A frame where the reticle sees skin: the snapped search result goes through one trigger step. */
  lemma TrackFound(mask: Mask, res: int, halfRes: int, reticle: Rect, noAim: Rect, offsets: seq<(int, int)>,
                   th: Trigger.Thresholds, w: Trigger.Window, aim: Point)
    requires IsSquare(mask, res) && InsideImage(reticle, res) && Trigger.Indexable(w) && AnyLit(mask, res, reticle)
    requires aim == Snap(Search(mask, res, halfRes, reticle, offsets).aim, noAim, halfRes)
    ensures var o := Trigger.Step(w, Trigger.YX(aim.y, aim.x), th);
      Track(mask, res, halfRes, reticle, noAim, offsets, th, w)
        == Frame(true, o.triggered, Point(o.aim.x, o.aim.y), Search(mask, res, halfRes, reticle, offsets).box, o.window)
  {
  }

  /** Between frames the gesture window keeps its shape, so the next frame's reads of it stay in range. */
  lemma TrackKeepsShape(mask: Mask, res: int, halfRes: int, reticle: Rect, noAim: Rect, offsets: seq<(int, int)>,
                        th: Trigger.Thresholds, w: Trigger.Window)
    requires IsSquare(mask, res) && InsideImage(reticle, res) && Trigger.Shape(w, th)
    ensures Trigger.Shape(Track(mask, res, halfRes, reticle, noAim, offsets, th, w).window, th)
  {
    if AnyLit(mask, res, reticle) {
      var aim := Snap(Search(mask, res, halfRes, reticle, offsets).aim, noAim, halfRes);
      Trigger.StepKeepsShape(w, Trigger.YX(aim.y, aim.x), th);
    }
  }

  /**
   * A trigger fires only on a frame where the reticle sees skin, at the end of
   * a full gesture: a rise within the thresholds, then a drop whose last point
   * came back near the first. The aim then jumps back to that first point and
   * the window starts afresh.
   */
  lemma TriggerNeedsGesture(mask: Mask, res: int, halfRes: int, reticle: Rect, noAim: Rect, offsets: seq<(int, int)>,
                            th: Trigger.Thresholds, w: Trigger.Window)
    requires IsSquare(mask, res) && InsideImage(reticle, res) && Trigger.Shape(w, th)
    requires Track(mask, res, halfRes, reticle, noAim, offsets, th, w).triggered
    ensures var r := Track(mask, res, halfRes, reticle, noAim, offsets, th, w);
      && r.detected && |w.points| > 0 && !w.increment
      && Trigger.DeepEnough(w.points, th) && Trigger.Valley(w.points)
      && var first, last := w.points[0], w.points[|w.points| - 1];
      && Trigger.Abs(first.y - last.y) <= th.yDeviation && Trigger.Abs(first.x - last.x) <= th.xDeviation
      && r.aim == Point(first.x, first.y) && r.window == Trigger.START
  {
    var aim := Snap(Search(mask, res, halfRes, reticle, offsets).aim, noAim, halfRes);
    Trigger.TriggerNeedsGesture(w, Trigger.YX(aim.y, aim.x), th);
  }

  /**
   * Unless a trigger fires, the aim point is the centre, or a lit block the
   * search took in that lies outside the no-aim area.
   */
  lemma AimAvoidsNoAimArea(mask: Mask, res: int, halfRes: int, reticle: Rect, noAim: Rect, offsets: seq<(int, int)>,
                           th: Trigger.Thresholds, w: Trigger.Window)
    requires IsSquare(mask, res) && InsideImage(reticle, res) && Trigger.Indexable(w)
    requires !Track(mask, res, halfRes, reticle, noAim, offsets, th, w).triggered
    ensures var r := Track(mask, res, halfRes, reticle, noAim, offsets, th, w);
      || r.aim == Point(halfRes, halfRes)
      || (&& !Contains(noAim, r.aim)
          && r.aim in Search(mask, res, halfRes, reticle, offsets).accepted
          && InFrame(r.aim, res) && BlockLit(mask, res, r.aim))
  {
    if AnyLit(mask, res, reticle) {
      var found := Search(mask, res, halfRes, reticle, offsets);
      SearchAimAndBox(mask, res, halfRes, reticle, offsets);
      SearchTakesLitBlocks(mask, res, halfRes, reticle, offsets);
      var aim := Snap(found.aim, noAim, halfRes);
      assert Track(mask, res, halfRes, reticle, noAim, offsets, th, w).aim == aim;
    }
  }

  /** For a frame side of at least `RETICLE_SIZE`, the centred reticle lies in the frame. */
  lemma ReticleInside(res: int)
    requires res >= RETICLE_SIZE
    ensures InsideImage(Centred(res / 2, RETICLE_SIZE), res)
  {
  }

  class Vaaac {
    var width: int
    var height: int
    var res: int
    var halfRes: int
    var frameBounds: Rect
    var reticleBounds: Rect
    var noAimAreaBounds: Rect
    var bfsOffsets: seq<(int, int)>
    var triggerMinimumDistancePixels: int
    var triggerMaximumDistancePixels: int
    var triggerAllowedYDeviationPixels: int
    var triggerAllowedXDeviationPixels: int
    var detected: bool
    var triggered: bool
    var increment: bool
    var yxDeltaSize: int
    var yxDelta: seq<Trigger.YX>

    /** The four trigger thresholds. */
    function Thresholds(): Trigger.Thresholds
      reads `triggerMinimumDistancePixels, `triggerMaximumDistancePixels
      reads `triggerAllowedYDeviationPixels, `triggerAllowedXDeviationPixels
    {
      Trigger.Thresholds(triggerMinimumDistancePixels, triggerMaximumDistancePixels,
                         triggerAllowedYDeviationPixels, triggerAllowedXDeviationPixels)
    }

    /** `yxDelta`, `yxDeltaSize` and `increment`. */
    function Window(): Trigger.Window
      reads `yxDelta, `yxDeltaSize, `increment
    {
      Trigger.Window(yxDelta, yxDeltaSize, increment)
    }

    /**
     * The configuration is the one the constructor derives from the frame size,
     * and the gesture window keeps its shape between frames.
     */
    ghost predicate Valid()
      reads this
    {
      Configured() && Trigger.Shape(Window(), Thresholds())
    }

    /** The fields the constructor sets once and `update` only reads. */
    ghost predicate Configured()
      reads `width, `height, `res, `halfRes, `frameBounds, `reticleBounds, `noAimAreaBounds, `bfsOffsets
      reads `triggerMinimumDistancePixels, `triggerMaximumDistancePixels
      reads `triggerAllowedYDeviationPixels, `triggerAllowedXDeviationPixels
    {
      && 0 <= res == Min(width, height)
      && halfRes == res / 2
      && frameBounds.width == res && frameBounds.height == res
      && reticleBounds == Centred(halfRes, RETICLE_SIZE)
      && noAimAreaBounds == Centred(halfRes, NO_AIM_AREA_SIZE)
      && bfsOffsets == NeighbourOffsets()
      && Thresholds() == Trigger.ThresholdsFor(res)
    }

    /** For a frame side of at least `RETICLE_SIZE`, the reticle lies in the frame. */
    lemma ReticleInFrame()
      requires Configured() && res >= RETICLE_SIZE
      ensures InsideImage(reticleBounds, res)
    {
      ReticleInside(res);
    }

    /**
     * The constructor for a camera frame of `width` by `height` pixels: the
     * largest centred square, the reticle and no-aim squares centred in it, the
     * nine neighbour offsets, the trigger thresholds, and an empty gesture.
     */
    constructor(width: int, height: int)
      requires 0 <= width && 0 <= height
      ensures Valid()
      ensures this.width == width && this.height == height
      ensures 0 <= width - res - 2 * frameBounds.x <= 1 && 0 <= height - res - 2 * frameBounds.y <= 1
      ensures frameBounds.x == 0 || frameBounds.y == 0
      ensures Window() == Trigger.START
    {
      this.width := width;
      this.height := height;
      var side := Min(width, height);
      res := side;
      halfRes := side / 2;
      var addX, addY := 0, 0;
      if width > height {
        addX := (width - height) / 2;
      } else if height > width {
        addY := (height - width) / 2;
      }
      frameBounds := Rect(addX, addY, side, side);
      var reticlePos := side / 2 - RETICLE_SIZE / 2;
      reticleBounds := Rect(reticlePos, reticlePos, RETICLE_SIZE, RETICLE_SIZE);
      var noAimAreaPos := side / 2 - NO_AIM_AREA_SIZE / 2;
      noAimAreaBounds := Rect(noAimAreaPos, noAimAreaPos, NO_AIM_AREA_SIZE, NO_AIM_AREA_SIZE);
      var offsets: seq<(int, int)> := [];
      for i := -1 to 2
        invariant |offsets| == 3 * (i + 1)
        invariant forall k :: 0 <= k < |offsets| ==> offsets[k] == OffsetAt(k)
      {
        for j := -1 to 2
          invariant |offsets| == 3 * (i + 1) + (j + 1)
          invariant forall k :: 0 <= k < |offsets| ==> offsets[k] == OffsetAt(k)
        {
          offsets := offsets + [(i * BFS_SAMPLE_SIZE, j * BFS_SAMPLE_SIZE)];
        }
      }
      bfsOffsets := offsets;
      triggerMinimumDistancePixels := Trigger.PixelsOf(Trigger.TRIGGER_MINIMUM_DISTANCE, side);
      triggerMaximumDistancePixels := Trigger.PixelsOf(Trigger.TRIGGER_MAXIMUM_DISTANCE, side);
      triggerAllowedYDeviationPixels := Trigger.PixelsOf(Trigger.TRIGGER_ALLOWED_Y_DEVIATION, side);
      triggerAllowedXDeviationPixels := Trigger.PixelsOf(Trigger.TRIGGER_ALLOWED_X_DEVIATION, side);
      increment := true;
      yxDeltaSize := 0;
      yxDelta := [];
    }

    /**
     * `update` on a frame whose binarised mask is `mask`: `detected`,
     * `triggered`, the aim point, the box and the new gesture window are those
     * of `Track`; only those fields change, so the configuration stays the constructor's.
     */
    method Update(mask: Mask) returns (aim: Point, box: Box)
      requires Valid() && res >= RETICLE_SIZE && IsSquare(mask, res)
      modifies `detected, `triggered, `yxDelta, `yxDeltaSize, `increment
      ensures Valid()
      ensures var r := old(Track(mask, res, halfRes, reticleBounds, noAimAreaBounds, bfsOffsets, Thresholds(), Window()));
        && detected == r.detected && triggered == r.triggered
        && aim == r.aim && box == r.box && Window() == r.window
    {
      ReticleInFrame();
      ghost var th, w := Thresholds(), Window();
      detected := false;
      triggered := false;
      box := ReticleBox(reticleBounds);
      aim := Point(halfRes, halfRes);
      if !AnyLit(mask, res, reticleBounds) {
        return;
      }
      detected := true;
      aim, box := Locate(mask);
      TrackFound(mask, res, halfRes, reticleBounds, noAimAreaBounds, bfsOffsets, th, w, aim);
      aim := Advance(aim);
    }

    /** The search of `update` and the no-aim test: the aim point and the box of the object under the reticle. */
    method Locate(mask: Mask) returns (aim: Point, box: Box)
      requires IsSquare(mask, res)
      ensures var found := Search(mask, res, halfRes, reticleBounds, bfsOffsets);
        aim == Snap(found.aim, noAimAreaBounds, halfRes) && box == found.box
    {
      aim, box := Flood(mask, res, halfRes, reticleBounds, bfsOffsets);
      if noAimAreaBounds.x <= aim.x < noAimAreaBounds.x + noAimAreaBounds.width
         && noAimAreaBounds.y <= aim.y < noAimAreaBounds.y + noAimAreaBounds.height {
        aim := Point(halfRes, halfRes);
      }
    }

    /**
     * The trigger part of `update` for the aim point `p`: one step of the
     * gesture, with `yxDeltaSize` cleared together with `yxDelta` when an
     * attempt ends.
     */
    method Advance(p: Point) returns (aim: Point)
      requires Valid() && !triggered
      modifies `yxDelta, `yxDeltaSize, `increment, `triggered
      ensures Valid()
      ensures var o := old(Trigger.Step(Window(), Trigger.YX(p.y, p.x), Thresholds()));
        Window() == o.window && triggered == o.triggered && aim == Point(o.aim.x, o.aim.y)
    {
      Trigger.StepKeepsShape(Window(), Trigger.YX(p.y, p.x), Thresholds());
      aim := p;
      if yxDeltaSize == 0 {
        yxDelta := yxDelta + [Trigger.YX(aim.y, aim.x)];
        yxDeltaSize := 1;
      } else if increment {
        if aim.y <= yxDelta[yxDeltaSize - 1].y {
          yxDeltaSize := yxDeltaSize + 1;
          yxDelta := yxDelta + [Trigger.YX(aim.y, aim.x)];
        } else {
          var yDelta := yxDelta[0].y - yxDelta[yxDeltaSize - 1].y;
          if yDelta >= triggerMinimumDistancePixels && yDelta <= triggerMaximumDistancePixels {
            increment := false;
          } else {
            yxDeltaSize := 0;
            yxDelta := [];
          }
        }
      } else {
        if aim.y >= yxDelta[yxDeltaSize - 1].y {
          yxDelta := yxDelta + [Trigger.YX(aim.y, aim.x)];
          yxDeltaSize := yxDeltaSize + 1;
        } else {
          var left, right := yxDelta[0], yxDelta[yxDeltaSize - 1];
          var ok := true;
          ok := ok && Trigger.Abs(left.y - right.y) <= triggerAllowedYDeviationPixels;
          ok := ok && Trigger.Abs(left.x - right.x) <= triggerAllowedXDeviationPixels;
          if ok {
            triggered := true;
            aim := Point(left.x, left.y);
          }
          increment := true;
          yxDelta := [];
          yxDeltaSize := 0;
        }
      }
    }
  }

  /** The `k`-th entry of `bfsOffsets`: `i` is the slow index and `j` the fast one, both over `-1, 0, 1`. */
  function OffsetAt(k: int): (o: (int, int))
    ensures 0 <= k < 9 ==> o == NeighbourOffsets()[k]
  {
    ((k / 3 - 1) * BFS_SAMPLE_SIZE, (k % 3 - 1) * BFS_SAMPLE_SIZE)
  }
}
