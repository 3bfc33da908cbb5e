/**
 * The object search of `vaaac::update`: the reticle test, the seeding of the
 * queue, the breadth-first flood over 2 by 2 pixel blocks of the binarised
 * mask, and the no-aim zone.
 */
module Tracker {
  import opened Geometry

  /** Side of the square reticle, centred in the image, where skin must be seen. */
  const RETICLE_SIZE: int := 40
  /** Side of the square, centred in the image, where the aim point snaps to the centre. */
  const NO_AIM_AREA_SIZE: int := 80
  /** Side of the pixel block one node of the search stands for, and the distance between nodes. */
  const BFS_SAMPLE_SIZE: int := 2

  /** The binarised mask of a frame, row by row: `mask[y][x]` holds where the skin tone was found. */
  type Mask = seq<seq<bool>>

  /** The mask is `res` rows of `res` pixels. */
  predicate IsSquare(mask: Mask, res: int)
  {
    |mask| == res && forall y :: 0 <= y < |mask| ==> |mask[y]| == res
  }

  /** Some pixel of row `y` in columns `[lo, hi)` is set. */
  function RowLit(mask: Mask, y: int, lo: int, hi: int): (b: bool)
    requires 0 <= y < |mask| && 0 <= lo <= hi <= |mask[y]|
    decreases hi - lo
    ensures b <==> exists x :: lo <= x < hi && mask[y][x]
  {
    if lo == hi then false else mask[y][lo] || RowLit(mask, y, lo + 1, hi)
  }

  /** Some pixel of `r` in rows `[y, r.y + r.height)` is set. */
  function RowsLit(mask: Mask, res: int, r: Rect, y: int): (b: bool)
    requires IsSquare(mask, res) && InsideImage(r, res)
    requires r.y <= y <= r.y + r.height
    decreases r.y + r.height - y
    ensures b <==> exists p: Point :: Contains(r, p) && y <= p.y && mask[p.y][p.x]
  {
    if y == r.y + r.height then false
    else if RowLit(mask, y, r.x, r.x + r.width) then
      var x :| r.x <= x < r.x + r.width && mask[y][x];
      assert Contains(r, Point(x, y));
      true
    else
      var b := RowsLit(mask, res, r, y + 1);
      assert forall p: Point :: Contains(r, p) && y <= p.y && mask[p.y][p.x] ==> y + 1 <= p.y;
      b
  }

  /**
   * `cv::mean(mask(r))[0] > 0`: the mask holds only 0 and 255, so the mean of
   * the region is positive exactly when one of its pixels is set.
   */
  function AnyLit(mask: Mask, res: int, r: Rect): (b: bool)
    requires IsSquare(mask, res) && InsideImage(r, res)
    ensures b <==> exists p: Point :: Contains(r, p) && mask[p.y][p.x]
  {
    RowsLit(mask, res, r, r.y)
  }

  /** The reticle, or the no-aim area: a square of side `size` centred on `(halfRes, halfRes)`. */
  function Centred(halfRes: int, size: int): (r: Rect)
    ensures r.width == size && r.height == size
    ensures size >= 0 ==> 2 * (halfRes - r.x) == size || 2 * (halfRes - r.x) == size - 1
    ensures r.x == r.y
  {
    var pos := halfRes - TruncDiv(size, 2);
    Rect(pos, pos, size, size)
  }

  // ---------------------------------------------------------------------
  // The neighbourhood and the seeds
  // ---------------------------------------------------------------------

  /** `bfsOffsets` as the constructor fills it: `(i * 2, j * 2)` for `i`, then `j`, in `-1, 0, 1`. */
  function NeighbourOffsets(): seq<(int, int)>
  {
    [(-2, -2), (-2, 0), (-2, 2), (0, -2), (0, 0), (0, 2), (2, -2), (2, 0), (2, 2)]
  }

  /** The nine offsets in the order of the constructor's two nested loops: `i` slow, `j` fast, both over `-1, 0, 1`. */
  lemma NeighbourOffsetsRowMajor()
    ensures |NeighbourOffsets()| == 9
    ensures forall i, j :: -1 <= i <= 1 && -1 <= j <= 1 ==>
      NeighbourOffsets()[3 * (i + 1) + (j + 1)] == (i * BFS_SAMPLE_SIZE, j * BFS_SAMPLE_SIZE)
  {
  }

  /** The seeds one reticle node `(i, j)` contributes: one per offset with no negative component. */
  function OffsetSeeds(i: int, j: int, offsets: seq<(int, int)>): seq<Point>
    decreases |offsets|
  {
    if offsets == [] then []
    else
      var o := offsets[|offsets| - 1];
      OffsetSeeds(i, j, offsets[..|offsets| - 1])
        + (if o.0 < 0 || o.1 < 0 then [] else [Point(i + o.0, j + o.1)])
  }

  /** The seeds of the nodes `(i, j), (i, j + 2), ...` with a second coordinate up to `hi`, in order. */
  function ColumnSeeds(i: int, j: int, hi: int, offsets: seq<(int, int)>): seq<Point>
    decreases hi - j
  {
    if j > hi then [] else OffsetSeeds(i, j, offsets) + ColumnSeeds(i, j + BFS_SAMPLE_SIZE, hi, offsets)
  }

  /** The seeds of the node rows `i, i + 2, ...` up to `hi`, each with second coordinates from `lo` to `hi`. */
  function GridSeeds(i: int, lo: int, hi: int, offsets: seq<(int, int)>): seq<Point>
    decreases hi - i
  {
    if i > hi then [] else ColumnSeeds(i, lo, hi, offsets) + GridSeeds(i + BFS_SAMPLE_SIZE, lo, hi, offsets)
  }

  /** The queue the three nested seeding loops of `update` leave, in order: nodes run over the reticle, `halfRes - 20` to `halfRes + 20`. */
  function Seeds(halfRes: int, offsets: seq<(int, int)>): seq<Point>
  {
    var lo, hi := halfRes - RETICLE_SIZE / 2, halfRes + RETICLE_SIZE / 2;
    GridSeeds(lo, lo, hi, offsets)
  }

  /** The innermost seeding loop: node `(i, j)` plus every offset with no negative component. */
  method NodeSeeds(i: int, j: int, offsets: seq<(int, int)>) returns (part: seq<Point>)
    ensures part == OffsetSeeds(i, j, offsets)
  {
    part := [];
    for k := 0 to |offsets|
      invariant part == OffsetSeeds(i, j, offsets[..k])
    {
      assert offsets[..k + 1][..k] == offsets[..k];
      var offset := offsets[k];
      if offset.0 < 0 || offset.1 < 0 {
        continue;
      }
      var x, y := i + offset.0, j + offset.1;
      part := part + [Point(x, y)];
    }
    assert offsets[..|offsets|] == offsets;
  }

  /** The middle seeding loop: `j` runs from `lo` to `hi` in steps of 2 for node row `i`. */
  method ColumnQueue(i: int, lo: int, hi: int, offsets: seq<(int, int)>) returns (column: seq<Point>)
    ensures column == ColumnSeeds(i, lo, hi, offsets)
  {
    column := [];
    var j := lo;
    while j <= hi
      invariant column + ColumnSeeds(i, j, hi, offsets) == ColumnSeeds(i, lo, hi, offsets)
      decreases hi - j
    {
      var part := NodeSeeds(i, j, offsets);
      assert column + (part + ColumnSeeds(i, j + BFS_SAMPLE_SIZE, hi, offsets))
          == column + part + ColumnSeeds(i, j + BFS_SAMPLE_SIZE, hi, offsets);
      column := column + part;
      j := j + BFS_SAMPLE_SIZE;
    }
    assert column + [] == column;
  }

  /** The seeding loops: `i` and `j` run over the reticle in steps of 2, and every offset is tried. */
  method SeedQueue(halfRes: int, offsets: seq<(int, int)>) returns (q: seq<Point>)
    ensures q == Seeds(halfRes, offsets)
  {
    var lo := halfRes - RETICLE_SIZE / 2;
    var hi := halfRes + RETICLE_SIZE / 2;
    q := [];
    var i := lo;
    while i <= hi
      invariant q + GridSeeds(i, lo, hi, offsets) == Seeds(halfRes, offsets)
      decreases hi - i
    {
      var column := ColumnQueue(i, lo, hi, offsets);
      assert q + (column + GridSeeds(i + BFS_SAMPLE_SIZE, lo, hi, offsets))
          == q + column + GridSeeds(i + BFS_SAMPLE_SIZE, lo, hi, offsets);
      q := q + column;
      i := i + BFS_SAMPLE_SIZE;
    }
    assert q + [] == q;
  }

  // ---------------------------------------------------------------------
  // The breadth-first search
  // ---------------------------------------------------------------------

  /** The block at `p` lies in the image: the test at the head of the search loop. */
  predicate InFrame(p: Point, res: int)
  {
    0 <= p.x && 0 <= p.y && p.x + BFS_SAMPLE_SIZE <= res && p.y + BFS_SAMPLE_SIZE <= res
  }

  /** The positions `(x, y)` with `0 <= x < n`. */
  function RowCells(y: int, n: nat): set<Point>
  {
    if n == 0 then {} else RowCells(y, n - 1) + {Point(n - 1, y)}
  }

  /** The positions `(x, y)` with `0 <= x < n` and `0 <= y < m`. */
  function GridCells(n: nat, m: nat): set<Point>
  {
    if m == 0 then {} else GridCells(n, m - 1) + RowCells(m - 1, n)
  }

  /** Every block position in the image; finite, so that the search can be shown to end. */
  function Cells(res: int): set<Point>
  {
    var side := if res >= BFS_SAMPLE_SIZE then res - BFS_SAMPLE_SIZE + 1 else 0;
    GridCells(side, side)
  }

  lemma {:induction false} InRowCells(p: Point, n: nat)
    requires 0 <= p.x < n
    ensures p in RowCells(p.y, n)
  {
    if p.x < n - 1 {
      InRowCells(p, n - 1);
    }
  }

  lemma {:induction false} InGridCells(p: Point, n: nat, m: nat)
    requires 0 <= p.x < n && 0 <= p.y < m
    ensures p in GridCells(n, m)
  {
    if p.y < m - 1 {
      InGridCells(p, n, m - 1);
    } else {
      InRowCells(p, n);
    }
  }

  /** Every block that passes the frame test is one of the `Cells`. */
  lemma InFrameIsCell(p: Point, res: int)
    requires InFrame(p, res)
    ensures p in Cells(res)
  {
    InGridCells(p, res - BFS_SAMPLE_SIZE + 1, res - BFS_SAMPLE_SIZE + 1);
  }

  /** `cv::mean(mask(cv::Rect(x, y, 2, 2)))[0] != 0`: some pixel of the block is set. */
  function BlockLit(mask: Mask, res: int, p: Point): bool
    requires IsSquare(mask, res) && InFrame(p, res)
  {
    AnyLit(mask, res, Rect(p.x, p.y, BFS_SAMPLE_SIZE, BFS_SAMPLE_SIZE))
  }

  /** A block is lit exactly when one of its four pixels is set. */
  lemma BlockLitPixels(mask: Mask, res: int, p: Point)
    requires IsSquare(mask, res) && InFrame(p, res)
    ensures BlockLit(mask, res, p) <==>
      mask[p.y][p.x] || mask[p.y][p.x + 1] || mask[p.y + 1][p.x] || mask[p.y + 1][p.x + 1]
  {
    var r := Rect(p.x, p.y, BFS_SAMPLE_SIZE, BFS_SAMPLE_SIZE);
    if BlockLit(mask, res, p) {
      var q :| Contains(r, q) && mask[q.y][q.x];
      assert q == p || q == Point(p.x + 1, p.y) || q == Point(p.x, p.y + 1) || q == Point(p.x + 1, p.y + 1);
    } else {
      assert Contains(r, p) && Contains(r, Point(p.x + 1, p.y));
      assert Contains(r, Point(p.x, p.y + 1)) && Contains(r, Point(p.x + 1, p.y + 1));
    }
  }

  /** `xMin, yMin, xMax, yMax` of `update`. */
  datatype Box = Box(xMin: int, yMin: int, xMax: int, yMax: int)

  /** The box after the block at `p` is taken in. */
  function Grow(b: Box, p: Point): (r: Box)
    ensures r.xMin <= p.x <= r.xMax && r.yMin <= p.y <= r.yMax
    ensures r.xMin <= b.xMin && r.yMin <= b.yMin && b.xMax <= r.xMax && b.yMax <= r.yMax
    ensures (r.xMin == b.xMin || r.xMin == p.x) && (r.xMax == b.xMax || r.xMax == p.x)
    ensures (r.yMin == b.yMin || r.yMin == p.y) && (r.yMax == b.yMax || r.yMax == p.y)
  {
    Box(Min(b.xMin, p.x), Min(b.yMin, p.y), Max(b.xMax, p.x), Max(b.yMax, p.y))
  }

  /** The node `offset` away from `p`. */
  function Shift(p: Point, offset: (int, int)): Point
  {
    Point(p.x + offset.0, p.y + offset.1)
  }

  /** The nodes `p + offset`, one per offset, in order. */
  function Shifted(p: Point, offsets: seq<(int, int)>): (r: seq<Point>)
    ensures |r| == |offsets|
    ensures forall k :: 0 <= k < |offsets| ==> r[k] == Shift(p, offsets[k])
  {
    seq(|offsets|, k requires 0 <= k < |offsets| => Shift(p, offsets[k]))
  }

  /**
   * The state of the search: the queue, the `visited` table as the set of marked
   * blocks, the aim point, the box, and (for the proofs) the blocks taken in, in order.
   */
  datatype Fill = Fill(queue: seq<Point>, visited: set<Point>, aim: Point, box: Box, accepted: seq<Point>)

  lemma CellsShrink(res: int, visited: set<Point>, p: Point)
    requires p in Cells(res) && p !in visited
    ensures |Cells(res) - (visited + {p})| < |Cells(res) - visited|
  {
    assert Cells(res) - (visited + {p}) == (Cells(res) - visited) - {p};
  }

  /** One pass of the search loop: pop the front, skip it, mark it, or take it in and push its neighbours. */
  function Step(mask: Mask, res: int, offsets: seq<(int, int)>, f: Fill): (r: Fill)
    requires IsSquare(mask, res) && f.queue != []
    requires f.visited <= Cells(res)
    ensures r.visited <= Cells(res)
    ensures r.visited == f.visited ==> |r.queue| < |f.queue|
    ensures r.visited != f.visited ==> |Cells(res) - r.visited| < |Cells(res) - f.visited|
  {
    var p := f.queue[0];
    var rest := f.queue[1..];
    if !InFrame(p, res) || p in f.visited then f.(queue := rest)
    else
      InFrameIsCell(p, res);
      CellsShrink(res, f.visited, p);
      if !BlockLit(mask, res, p) then f.(queue := rest, visited := f.visited + {p})
      else Fill(rest + Shifted(p, offsets), f.visited + {p}, p, Grow(f.box, p), f.accepted + [p])
  }

  /** The search loop run until the queue is empty. */
  function Run(mask: Mask, res: int, offsets: seq<(int, int)>, f: Fill): (r: Fill)
    requires IsSquare(mask, res)
    requires f.visited <= Cells(res)
    decreases |Cells(res) - f.visited|, |f.queue|
  {
    if f.queue == [] then f else Run(mask, res, offsets, Step(mask, res, offsets, f))
  }

  /** The box `update` starts from: the reticle's corners. */
  function ReticleBox(reticle: Rect): Box
  {
    Box(reticle.x, reticle.y, reticle.x + reticle.width, reticle.y + reticle.height)
  }

  /** The search as `update` starts it: the seeds queued, nothing visited, aim at the centre, box the reticle's. */
  function Search(mask: Mask, res: int, halfRes: int, reticle: Rect, offsets: seq<(int, int)>): Fill
    requires IsSquare(mask, res)
  {
    Run(mask, res, offsets, Fill(Seeds(halfRes, offsets), {}, Point(halfRes, halfRes), ReticleBox(reticle), []))
  }

  /** The loop that pushes `p + offset` for every offset, in order. */
  method PushNeighbours(q: seq<Point>, p: Point, offsets: seq<(int, int)>) returns (r: seq<Point>)
    ensures r == q + Shifted(p, offsets)
  {
    r := q;
    for k := 0 to |offsets|
      invariant r == q + Shifted(p, offsets)[..k]
    {
      assert Shifted(p, offsets)[..k + 1] == Shifted(p, offsets)[..k] + [Shifted(p, offsets)[k]];
      r := r + [Point(p.x + offsets[k].0, p.y + offsets[k].1)];
    }
    assert Shifted(p, offsets)[..|offsets|] == Shifted(p, offsets);
  }

  /** The `visited` table marks exactly the blocks of `seen`, and those lie in the image. */
  ghost predicate Marks(visited: array2<bool>, seen: set<Point>, res: int)
    reads visited
  {
    && visited.Length0 == res + 1 && visited.Length1 == res + 1
    && (forall x, y :: 0 <= x <= res && 0 <= y <= res ==> (visited[x, y] <==> Point(x, y) in seen))
    && seen <= Cells(res)
  }

  /** One pass of the search loop of `update`, on the program's own queue, table, aim point and box. */
  method VisitFront(mask: Mask, res: int, offsets: seq<(int, int)>, visited: array2<bool>,
                    q: seq<Point>, aim: Point, box: Box, ghost seen: set<Point>, ghost accepted: seq<Point>)
    returns (q': seq<Point>, aim': Point, box': Box, ghost seen': set<Point>, ghost accepted': seq<Point>)
    requires IsSquare(mask, res) && q != []
    requires Marks(visited, seen, res)
    modifies visited
    ensures Marks(visited, seen', res)
    ensures Fill(q', seen', aim', box', accepted') == Step(mask, res, offsets, Fill(q, seen, aim, box, accepted))
  {
    ghost var f := Fill(q, seen, aim, box, accepted);
    q', aim', box', seen', accepted' := q, aim, box, seen, accepted;
    var p := q'[0];
    q' := q'[1..];
    if p.x < 0 || p.y < 0 || p.x + BFS_SAMPLE_SIZE > res || p.y + BFS_SAMPLE_SIZE > res || visited[p.x, p.y] {
      StepSkips(mask, res, offsets, f);
      return;
    }
    visited[p.x, p.y] := true;
    seen' := seen' + {p};
    InFrameIsCell(p, res);
    if !BlockLit(mask, res, p) {
      StepMarks(mask, res, offsets, f);
      return;
    }
    aim' := p;
    box' := Box(Min(box'.xMin, p.x), Min(box'.yMin, p.y), Max(box'.xMax, p.x), Max(box'.yMax, p.y));
    accepted' := accepted' + [p];
    q' := PushNeighbours(q', p, offsets);
    StepTakes(mask, res, offsets, f);
  }

  /** The search loop of `update`, over a `std::queue` and a `(res + 1)` by `(res + 1)` `visited` table. */
  method Flood(mask: Mask, res: int, halfRes: int, reticle: Rect, offsets: seq<(int, int)>)
    returns (aim: Point, box: Box)
    requires IsSquare(mask, res)
    ensures aim == Search(mask, res, halfRes, reticle, offsets).aim
    ensures box == Search(mask, res, halfRes, reticle, offsets).box
  {
    var q := SeedQueue(halfRes, offsets);
    aim := Point(halfRes, halfRes);
    box := ReticleBox(reticle);
    var visited := new bool[res + 1, res + 1]((_, _) => false);
    ghost var seen: set<Point> := {};
    ghost var accepted: seq<Point> := [];
    ghost var total := Search(mask, res, halfRes, reticle, offsets);
    while q != []
      invariant Marks(visited, seen, res)
      invariant total == Run(mask, res, offsets, Fill(q, seen, aim, box, accepted))
      decreases |Cells(res) - seen|, |q|
    {
      q, aim, box, seen, accepted := VisitFront(mask, res, offsets, visited, q, aim, box, seen, accepted);
    }
  }

  lemma StepSkips(mask: Mask, res: int, offsets: seq<(int, int)>, f: Fill)
    requires IsSquare(mask, res) && f.queue != [] && f.visited <= Cells(res)
    requires !InFrame(f.queue[0], res) || f.queue[0] in f.visited
    ensures Step(mask, res, offsets, f) == f.(queue := f.queue[1..])
  {
  }

  lemma StepMarks(mask: Mask, res: int, offsets: seq<(int, int)>, f: Fill)
    requires IsSquare(mask, res) && f.queue != [] && f.visited <= Cells(res)
    requires InFrame(f.queue[0], res) && f.queue[0] !in f.visited && !BlockLit(mask, res, f.queue[0])
    ensures Step(mask, res, offsets, f) == f.(queue := f.queue[1..], visited := f.visited + {f.queue[0]})
  {
  }

  lemma StepTakes(mask: Mask, res: int, offsets: seq<(int, int)>, f: Fill)
    requires IsSquare(mask, res) && f.queue != [] && f.visited <= Cells(res)
    requires InFrame(f.queue[0], res) && f.queue[0] !in f.visited && BlockLit(mask, res, f.queue[0])
    ensures var p := f.queue[0];
      Step(mask, res, offsets, f) ==
        Fill(f.queue[1..] + Shifted(p, offsets), f.visited + {p}, p, Grow(f.box, p), f.accepted + [p])
  {
  }

  /** The no-aim test: an aim point inside the no-aim area snaps to the centre. */
  function Snap(aim: Point, noAim: Rect, halfRes: int): (r: Point)
    ensures !Contains(noAim, aim) ==> r == aim
    ensures Contains(noAim, aim) ==> r == Point(halfRes, halfRes)
    ensures r == Point(halfRes, halfRes) || !Contains(noAim, r)
  {
    if Contains(noAim, aim) then Point(halfRes, halfRes) else aim
  }
}
