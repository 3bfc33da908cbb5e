/**
 * What the search of `vaaac::update` computes. Started from the seeds, it
 * takes in exactly the lit blocks reachable from a lit seed through lit blocks
 * one offset apart, each once; the aim point is the last block taken in and
 * the box spans the reticle and every block taken in.
 */
module TrackerProperties {
  import opened Geometry
  import opened Tracker

  /** `b` is one of the nodes pushed when `a` is taken in. */
  ghost predicate Neighbour(a: Point, b: Point, offsets: seq<(int, int)>)
  {
    exists m :: 0 <= m < |offsets| && b == Shift(a, offsets[m])
  }

  /** `p` is a seed, or a neighbour of one of the blocks of `prior`. */
  ghost predicate Origin(p: Point, seeds: seq<Point>, prior: seq<Point>, offsets: seq<(int, int)>)
  {
    p in seeds || exists j :: 0 <= j < |prior| && Neighbour(prior[j], p, offsets)
  }

  ghost predicate Distinct(s: seq<Point>)
  {
    forall i, j :: 0 <= i < j < |s| ==> s[i] != s[j]
  }

  /** The columns of the blocks of `taken`, in order. */
  function Columns(taken: seq<Point>): (c: seq<int>)
    ensures |c| == |taken|
  {
    if taken == [] then [] else Columns(taken[..|taken| - 1]) + [taken[|taken| - 1].x]
  }

  /** The rows of the blocks of `taken`, in order. */
  function Rows(taken: seq<Point>): (r: seq<int>)
    ensures |r| == |taken|
  {
    if taken == [] then [] else Rows(taken[..|taken| - 1]) + [taken[|taken| - 1].y]
  }

  /** The box after each block of `taken` has been taken in, in order, starting from `b0`. */
  function Span(b0: Box, taken: seq<Point>): Box
  {
    if taken == [] then b0 else Grow(Span(b0, taken[..|taken| - 1]), taken[|taken| - 1])
  }

  predicate Within(b: Box, p: Point)
  {
    b.xMin <= p.x <= b.xMax && b.yMin <= p.y <= b.yMax
  }

  /** The box spans the starting box and every block taken in. */
  lemma {:induction false} SpanEncloses(b0: Box, taken: seq<Point>)
    ensures var b := Span(b0, taken);
      b.xMin <= b0.xMin && b.yMin <= b0.yMin && b0.xMax <= b.xMax && b0.yMax <= b.yMax
    ensures forall k :: 0 <= k < |taken| ==> Within(Span(b0, taken), taken[k])
  {
    if taken != [] {
      var init := taken[..|taken| - 1];
      SpanEncloses(b0, init);
      forall k | 0 <= k < |taken|
        ensures Within(Span(b0, taken), taken[k])
      {
        if k < |init| {
          assert taken[k] == init[k];
        }
      }
    }
  }

  /** No edge of the box lies further out than it must: each is the starting box's or a block's. */
  lemma {:induction false} SpanTight(b0: Box, taken: seq<Point>)
    ensures var b := Span(b0, taken);
      && (b.xMin == b0.xMin || b.xMin in Columns(taken))
      && (b.xMax == b0.xMax || b.xMax in Columns(taken))
      && (b.yMin == b0.yMin || b.yMin in Rows(taken))
      && (b.yMax == b0.yMax || b.yMax in Rows(taken))
  {
    if taken != [] {
      SpanTight(b0, taken[..|taken| - 1]);
    }
  }

  /** The state of the search without its queue: taken blocks are marked, and a marked block is taken exactly when lit. */
  ghost predicate Marked(mask: Mask, res: int, f: Fill)
    requires IsSquare(mask, res)
  {
    && (forall k :: 0 <= k < |f.accepted| ==> f.accepted[k] in f.visited)
    && (forall v :: v in f.visited ==> InFrame(v, res) && (BlockLit(mask, res, v) <==> v in f.accepted))
  }

  /** `p` is still queued, already marked, or outside the image. */
  ghost predicate Handled(f: Fill, p: Point, res: int)
  {
    p in f.queue || p in f.visited || !InFrame(p, res)
  }

  /** No seed and no neighbour of a taken block has been lost. */
  ghost predicate Closed(f: Fill, seeds: seq<Point>, offsets: seq<(int, int)>, res: int)
  {
    && (forall k :: 0 <= k < |seeds| ==> Handled(f, seeds[k], res))
    && (forall k, m :: 0 <= k < |f.accepted| && 0 <= m < |offsets| ==> Handled(f, Shift(f.accepted[k], offsets[m]), res))
  }

  /** Every queued node and every taken block is a seed or a neighbour of a block taken before it. */
  ghost predicate Reached(f: Fill, seeds: seq<Point>, offsets: seq<(int, int)>)
  {
    && (forall k :: 0 <= k < |f.queue| ==> Origin(f.queue[k], seeds, f.accepted, offsets))
    && (forall k :: 0 <= k < |f.accepted| ==> Origin(f.accepted[k], seeds, f.accepted[..k], offsets))
  }

  /** The aim point is the last block taken in, and the box spans the blocks taken in. */
  ghost predicate Traced(f: Fill, a0: Point, b0: Box)
  {
    && f.aim == (if f.accepted == [] then a0 else f.accepted[|f.accepted| - 1])
    && f.box == Span(b0, f.accepted)
  }

  ghost predicate Inv(mask: Mask, res: int, seeds: seq<Point>, offsets: seq<(int, int)>, a0: Point, b0: Box, f: Fill)
    requires IsSquare(mask, res)
  {
    && f.visited <= Cells(res)
    && Marked(mask, res, f)
    && Distinct(f.accepted)
    && Closed(f, seeds, offsets, res)
    && Reached(f, seeds, offsets)
    && Traced(f, a0, b0)
  }

  lemma StepKeepsMarked(mask: Mask, res: int, offsets: seq<(int, int)>, f: Fill)
    requires IsSquare(mask, res) && f.queue != [] && f.visited <= Cells(res)
    requires Marked(mask, res, f)
    ensures Marked(mask, res, Step(mask, res, offsets, f))
    ensures Distinct(f.accepted) ==> Distinct(Step(mask, res, offsets, f).accepted)
  {
    var p := f.queue[0];
    if !InFrame(p, res) || p in f.visited {
      StepSkips(mask, res, offsets, f);
    } else if !BlockLit(mask, res, p) {
      StepMarks(mask, res, offsets, f);
    } else {
      StepTakes(mask, res, offsets, f);
      TakeKeepsMarked(mask, res, f, Step(mask, res, offsets, f), p);
    }
  }

  /** Taking in the lit, unmarked block `p` marks it and appends it to the accepted blocks. */
  lemma TakeKeepsMarked(mask: Mask, res: int, f: Fill, g: Fill, p: Point)
    requires IsSquare(mask, res) && Marked(mask, res, f)
    requires InFrame(p, res) && p !in f.visited && BlockLit(mask, res, p)
    requires g.accepted == f.accepted + [p] && g.visited == f.visited + {p}
    ensures Marked(mask, res, g)
    ensures Distinct(f.accepted) ==> Distinct(g.accepted)
  {
    assert p !in f.accepted;
    forall k | 0 <= k < |g.accepted|
      ensures g.accepted[k] in g.visited
    {
      if k < |f.accepted| {
        assert g.accepted[k] == f.accepted[k];
      }
    }
    forall v | v in g.visited
      ensures InFrame(v, res) && (BlockLit(mask, res, v) <==> v in g.accepted)
    {
      if v != p {
        assert v in g.accepted <==> v in f.accepted;
      }
    }
  }

  /** A node that is handled stays handled. */
  lemma StepKeepsHandled(mask: Mask, res: int, offsets: seq<(int, int)>, f: Fill, x: Point)
    requires IsSquare(mask, res) && f.queue != [] && f.visited <= Cells(res)
    requires Handled(f, x, res)
    ensures Handled(Step(mask, res, offsets, f), x, res)
  {
    var p := f.queue[0];
    var g := Step(mask, res, offsets, f);
    if x in f.queue && x != p {
      assert x in f.queue[1..];
      if !InFrame(p, res) || p in f.visited {
        StepSkips(mask, res, offsets, f);
      } else if !BlockLit(mask, res, p) {
        StepMarks(mask, res, offsets, f);
      } else {
        StepTakes(mask, res, offsets, f);
        assert x in g.queue;
      }
    }
  }

  lemma StepKeepsClosed(mask: Mask, res: int, seeds: seq<Point>, offsets: seq<(int, int)>, f: Fill)
    requires IsSquare(mask, res) && f.queue != [] && f.visited <= Cells(res)
    requires Closed(f, seeds, offsets, res)
    ensures Closed(Step(mask, res, offsets, f), seeds, offsets, res)
  {
    var p := f.queue[0];
    var g := Step(mask, res, offsets, f);
    forall k | 0 <= k < |seeds|
      ensures Handled(g, seeds[k], res)
    {
      StepKeepsHandled(mask, res, offsets, f, seeds[k]);
    }
    forall k, m | 0 <= k < |g.accepted| && 0 <= m < |offsets|
      ensures Handled(g, Shift(g.accepted[k], offsets[m]), res)
    {
      if k < |f.accepted| {
        assert g.accepted[k] == f.accepted[k] by {
          if InFrame(p, res) && p !in f.visited && BlockLit(mask, res, p) {
            StepTakes(mask, res, offsets, f);
          } else if InFrame(p, res) && p !in f.visited {
            StepMarks(mask, res, offsets, f);
          } else {
            StepSkips(mask, res, offsets, f);
          }
        }
        StepKeepsHandled(mask, res, offsets, f, Shift(f.accepted[k], offsets[m]));
      } else {
        TakenIsLast(mask, res, offsets, f);
        assert g.queue[|f.queue| - 1 + m] == Shift(p, offsets[m]);
      }
    }
  }

  /** A block newly taken in is the popped node, and its neighbours end the queue. */
  lemma TakenIsLast(mask: Mask, res: int, offsets: seq<(int, int)>, f: Fill)
    requires IsSquare(mask, res) && f.queue != [] && f.visited <= Cells(res)
    requires |Step(mask, res, offsets, f).accepted| != |f.accepted|
    ensures var g := Step(mask, res, offsets, f);
      && InFrame(f.queue[0], res) && f.queue[0] !in f.visited && BlockLit(mask, res, f.queue[0])
      && g.accepted == f.accepted + [f.queue[0]]
      && g.queue == f.queue[1..] + Shifted(f.queue[0], offsets)
  {
  }

  lemma OriginExtends(p: Point, seeds: seq<Point>, prior: seq<Point>, q: Point, offsets: seq<(int, int)>)
    requires Origin(p, seeds, prior, offsets)
    ensures Origin(p, seeds, prior + [q], offsets)
  {
    if p !in seeds {
      var j :| 0 <= j < |prior| && Neighbour(prior[j], p, offsets);
      assert (prior + [q])[j] == prior[j];
    }
  }

  lemma StepKeepsReached(mask: Mask, res: int, seeds: seq<Point>, offsets: seq<(int, int)>, f: Fill)
    requires IsSquare(mask, res) && f.queue != [] && f.visited <= Cells(res)
    requires Reached(f, seeds, offsets)
    ensures Reached(Step(mask, res, offsets, f), seeds, offsets)
  {
    var p := f.queue[0];
    var g := Step(mask, res, offsets, f);
    if !InFrame(p, res) || p in f.visited {
      StepSkips(mask, res, offsets, f);
      assert forall k :: 0 <= k < |g.queue| ==> g.queue[k] == f.queue[k + 1];
    } else if !BlockLit(mask, res, p) {
      StepMarks(mask, res, offsets, f);
      assert forall k :: 0 <= k < |g.queue| ==> g.queue[k] == f.queue[k + 1];
    } else {
      StepTakes(mask, res, offsets, f);
      var n := |f.queue| - 1;
      forall k | 0 <= k < |g.queue|
        ensures Origin(g.queue[k], seeds, g.accepted, offsets)
      {
        if k < n {
          assert g.queue[k] == f.queue[k + 1];
          OriginExtends(f.queue[k + 1], seeds, f.accepted, p, offsets);
        } else {
          assert g.queue[k] == Shift(p, offsets[k - n]);
          assert Neighbour(g.accepted[|f.accepted|], g.queue[k], offsets);
        }
      }
      forall k | 0 <= k < |g.accepted|
        ensures Origin(g.accepted[k], seeds, g.accepted[..k], offsets)
      {
        assert g.accepted[..k] == f.accepted[..k] || k == |f.accepted|;
        if k < |f.accepted| {
          assert g.accepted[k] == f.accepted[k];
        } else {
          assert g.accepted[..k] == f.accepted;
        }
      }
    }
  }

  lemma StepKeepsTraced(mask: Mask, res: int, offsets: seq<(int, int)>, f: Fill, a0: Point, b0: Box)
    requires IsSquare(mask, res) && f.queue != [] && f.visited <= Cells(res)
    requires Traced(f, a0, b0)
    ensures Traced(Step(mask, res, offsets, f), a0, b0)
  {
    var p := f.queue[0];
    if !InFrame(p, res) || p in f.visited {
      StepSkips(mask, res, offsets, f);
    } else if !BlockLit(mask, res, p) {
      StepMarks(mask, res, offsets, f);
    } else {
      StepTakes(mask, res, offsets, f);
      assert (f.accepted + [p])[..|f.accepted|] == f.accepted;
    }
  }

  /** The search loop keeps the invariant, and stops with an empty queue. */
  lemma {:induction false} RunKeeps(mask: Mask, res: int, seeds: seq<Point>, offsets: seq<(int, int)>,
                                    a0: Point, b0: Box, f: Fill)
    requires IsSquare(mask, res) && f.visited <= Cells(res)
    requires Inv(mask, res, seeds, offsets, a0, b0, f)
    ensures Inv(mask, res, seeds, offsets, a0, b0, Run(mask, res, offsets, f))
    ensures Run(mask, res, offsets, f).queue == []
    decreases |Cells(res) - f.visited|, |f.queue|
  {
    if f.queue != [] {
      StepKeepsMarked(mask, res, offsets, f);
      StepKeepsClosed(mask, res, seeds, offsets, f);
      StepKeepsReached(mask, res, seeds, offsets, f);
      StepKeepsTraced(mask, res, offsets, f, a0, b0);
      RunKeeps(mask, res, seeds, offsets, a0, b0, Step(mask, res, offsets, f));
    }
  }

  /** The invariant holds of the finished search `update` runs. */
  lemma SearchKeeps(mask: Mask, res: int, halfRes: int, reticle: Rect, offsets: seq<(int, int)>)
    requires IsSquare(mask, res)
    ensures var r := Search(mask, res, halfRes, reticle, offsets);
      && Inv(mask, res, Seeds(halfRes, offsets), offsets, Point(halfRes, halfRes), ReticleBox(reticle), r)
      && r.queue == []
  {
    var seeds := Seeds(halfRes, offsets);
    var f := Fill(seeds, {}, Point(halfRes, halfRes), ReticleBox(reticle), []);
    assert Closed(f, seeds, offsets, res) by {
      assert forall k :: 0 <= k < |seeds| ==> seeds[k] in f.queue;
    }
    RunKeeps(mask, res, seeds, offsets, Point(halfRes, halfRes), ReticleBox(reticle), f);
  }

  /** Every block the search takes in lies in the image and is lit, and none is taken twice. */
  lemma SearchTakesLitBlocks(mask: Mask, res: int, halfRes: int, reticle: Rect, offsets: seq<(int, int)>)
    requires IsSquare(mask, res)
    ensures var r := Search(mask, res, halfRes, reticle, offsets);
      && Distinct(r.accepted)
      && forall k :: 0 <= k < |r.accepted| ==> InFrame(r.accepted[k], res) && BlockLit(mask, res, r.accepted[k])
  {
    SearchKeeps(mask, res, halfRes, reticle, offsets);
  }

  /** Nothing lit is missed: a lit seed, and a lit neighbour of a block taken in, are taken in too. */
  lemma SearchIsClosed(mask: Mask, res: int, halfRes: int, reticle: Rect, offsets: seq<(int, int)>)
    requires IsSquare(mask, res)
    ensures var r := Search(mask, res, halfRes, reticle, offsets);
      && (forall s :: s in Seeds(halfRes, offsets) && InFrame(s, res) && BlockLit(mask, res, s) ==> s in r.accepted)
      && (forall k, m :: 0 <= k < |r.accepted| && 0 <= m < |offsets| ==>
            var n := Shift(r.accepted[k], offsets[m]);
            InFrame(n, res) && BlockLit(mask, res, n) ==> n in r.accepted)
  {
    SearchKeeps(mask, res, halfRes, reticle, offsets);
  }

  /** Nothing unreachable is taken in: each block is a seed or a neighbour of a block taken in before it. */
  lemma SearchIsReachable(mask: Mask, res: int, halfRes: int, reticle: Rect, offsets: seq<(int, int)>)
    requires IsSquare(mask, res)
    ensures var r := Search(mask, res, halfRes, reticle, offsets);
      forall k :: 0 <= k < |r.accepted| ==> Origin(r.accepted[k], Seeds(halfRes, offsets), r.accepted[..k], offsets)
  {
    SearchKeeps(mask, res, halfRes, reticle, offsets);
  }

  /**
   * The aim point is the last block taken in, or the centre when none was; the
   * box spans the reticle and every block taken in, and each of its edges is
   * the reticle's or a block's.
   */
  lemma SearchAimAndBox(mask: Mask, res: int, halfRes: int, reticle: Rect, offsets: seq<(int, int)>)
    requires IsSquare(mask, res)
    ensures var r := Search(mask, res, halfRes, reticle, offsets);
      && r.aim == (if r.accepted == [] then Point(halfRes, halfRes) else r.accepted[|r.accepted| - 1])
      && r.box == Span(ReticleBox(reticle), r.accepted)
      && (forall k :: 0 <= k < |r.accepted| ==> Within(r.box, r.accepted[k]))
      && (r.box.xMin == reticle.x || r.box.xMin in Columns(r.accepted))
      && (r.box.yMin == reticle.y || r.box.yMin in Rows(r.accepted))
      && (r.box.xMax == reticle.x + reticle.width || r.box.xMax in Columns(r.accepted))
      && (r.box.yMax == reticle.y + reticle.height || r.box.yMax in Rows(r.accepted))
  {
    SearchKeeps(mask, res, halfRes, reticle, offsets);
    var r := Search(mask, res, halfRes, reticle, offsets);
    SpanEncloses(ReticleBox(reticle), r.accepted);
    SpanTight(ReticleBox(reticle), r.accepted);
  }

  // ---------------------------------------------------------------------
  // The seeds and the neighbourhood the constructor sets up
  // ---------------------------------------------------------------------

  /** The seeds of node `(i, j)`: itself and the nodes 2 to the right, 2 below, and both. */
  function Corners(i: int, j: int): seq<Point>
  {
    [Point(i, j), Point(i, j + BFS_SAMPLE_SIZE), Point(i + BFS_SAMPLE_SIZE, j), Point(i + BFS_SAMPLE_SIZE, j + BFS_SAMPLE_SIZE)]
  }

  /** The constructor's offsets skip the five with a negative component and keep the four others. */
  lemma NodeSeedsOfNeighbours(i: int, j: int)
    ensures OffsetSeeds(i, j, NeighbourOffsets()) == Corners(i, j)
  {
    var o := NeighbourOffsets();
    assert OffsetSeeds(i, j, o[..0]) == [];
    assert o[..1][..0] == o[..0] && OffsetSeeds(i, j, o[..1]) == [];
    assert o[..2][..1] == o[..1] && OffsetSeeds(i, j, o[..2]) == [];
    assert o[..3][..2] == o[..2] && OffsetSeeds(i, j, o[..3]) == [];
    assert o[..4][..3] == o[..3] && OffsetSeeds(i, j, o[..4]) == [];
    assert o[..5][..4] == o[..4] && OffsetSeeds(i, j, o[..5]) == [Point(i, j)];
    assert o[..6][..5] == o[..5] && OffsetSeeds(i, j, o[..6]) == [Point(i, j), Point(i, j + 2)];
    assert o[..7][..6] == o[..6] && OffsetSeeds(i, j, o[..7]) == [Point(i, j), Point(i, j + 2)];
    assert o[..8][..7] == o[..7] && OffsetSeeds(i, j, o[..8]) == [Point(i, j), Point(i, j + 2), Point(i + 2, j)];
    assert o[..9][..8] == o[..8] && o[..9] == o;
  }

  /** An offset list whose components are at most 2 (`BFS_SAMPLE_SIZE`), as the constructor's are. */
  ghost predicate SmallOffsets(offsets: seq<(int, int)>)
  {
    forall k :: 0 <= k < |offsets| ==> offsets[k].0 <= BFS_SAMPLE_SIZE && offsets[k].1 <= BFS_SAMPLE_SIZE
  }

  lemma NeighbourOffsetsSmall(offsets: seq<(int, int)>)
    requires offsets == NeighbourOffsets()
    ensures (0, 0) in offsets && SmallOffsets(offsets)
  {
    assert offsets[4] == (0, 0);
  }

  /** With the offset `(0, 0)`, a node is among its own seeds. */
  lemma {:induction false} OffsetSeedsHaveNode(i: int, j: int, offsets: seq<(int, int)>)
    requires (0, 0) in offsets
    ensures Point(i, j) in OffsetSeeds(i, j, offsets)
    decreases |offsets|
  {
    var n := |offsets| - 1;
    if offsets[n] != (0, 0) {
      assert offsets == offsets[..n] + [offsets[n]];
      OffsetSeedsHaveNode(i, j, offsets[..n]);
    }
  }

  /** With small offsets, a node's seeds lie in the 2-by-2 square to its lower right. */
  lemma {:induction false} OffsetSeedsNear(i: int, j: int, s: Point, offsets: seq<(int, int)>)
    requires SmallOffsets(offsets) && s in OffsetSeeds(i, j, offsets)
    ensures i <= s.x <= i + BFS_SAMPLE_SIZE && j <= s.y <= j + BFS_SAMPLE_SIZE
    decreases |offsets|
  {
    var n := |offsets| - 1;
    var o := offsets[n];
    if s != Point(i + o.0, j + o.1) || o.0 < 0 || o.1 < 0 {
      assert SmallOffsets(offsets[..n]) by {
        forall k | 0 <= k < n ensures offsets[..n][k] == offsets[k] { }
      }
      OffsetSeedsNear(i, j, s, offsets[..n]);
    }
  }

  // The nodes of a column or a grid are 2 (`BFS_SAMPLE_SIZE`) pixels apart.

  lemma {:induction false} ColumnSeedsCover(i: int, j: int, hi: int, b: nat, p: Point, offsets: seq<(int, int)>)
    requires (0, 0) in offsets && p.x == i && p.y == j + 2 * b <= hi
    ensures p in ColumnSeeds(i, j, hi, offsets)
    decreases b
  {
    if b == 0 {
      OffsetSeedsHaveNode(i, j, offsets);
    } else {
      ColumnSeedsCover(i, j + BFS_SAMPLE_SIZE, hi, b - 1, p, offsets);
    }
  }

  lemma {:induction false} ColumnSeedsWithin(i: int, j: int, hi: int, s: Point, offsets: seq<(int, int)>)
    requires SmallOffsets(offsets) && s in ColumnSeeds(i, j, hi, offsets)
    ensures i <= s.x <= i + BFS_SAMPLE_SIZE && j <= s.y <= hi + BFS_SAMPLE_SIZE
    decreases hi - j
  {
    if s in OffsetSeeds(i, j, offsets) {
      OffsetSeedsNear(i, j, s, offsets);
    } else {
      ColumnSeedsWithin(i, j + BFS_SAMPLE_SIZE, hi, s, offsets);
    }
  }

  lemma {:induction false} GridSeedsCover(i: int, lo: int, hi: int, a: nat, b: nat, p: Point, offsets: seq<(int, int)>)
    requires (0, 0) in offsets && p.x == i + 2 * a <= hi && p.y == lo + 2 * b <= hi
    ensures p in GridSeeds(i, lo, hi, offsets)
    decreases a
  {
    if a == 0 {
      ColumnSeedsCover(i, lo, hi, b, p, offsets);
    } else {
      GridSeedsCover(i + BFS_SAMPLE_SIZE, lo, hi, a - 1, b, p, offsets);
    }
  }

  lemma {:induction false} GridSeedsWithin(i: int, lo: int, hi: int, s: Point, offsets: seq<(int, int)>)
    requires SmallOffsets(offsets) && s in GridSeeds(i, lo, hi, offsets)
    ensures i <= s.x <= hi + BFS_SAMPLE_SIZE && lo <= s.y <= hi + BFS_SAMPLE_SIZE
    decreases hi - i
  {
    if s in ColumnSeeds(i, lo, hi, offsets) {
      ColumnSeedsWithin(i, lo, hi, s, offsets);
    } else {
      GridSeedsWithin(i + BFS_SAMPLE_SIZE, lo, hi, s, offsets);
    }
  }

  /**
   * Every node of the reticle grid the seeding loops walk, 21 by 21 nodes 2
   * pixels apart, is queued.
   */
  lemma SeedsCoverReticle(halfRes: int, offsets: seq<(int, int)>)
    requires offsets == NeighbourOffsets()
    ensures forall a, b :: 0 <= a <= RETICLE_SIZE / 2 && 0 <= b <= RETICLE_SIZE / 2 ==>
      Point(halfRes - RETICLE_SIZE / 2 + 2 * a, halfRes - RETICLE_SIZE / 2 + 2 * b) in Seeds(halfRes, offsets)
  {
    NeighbourOffsetsSmall(offsets);
    forall a, b | 0 <= a <= RETICLE_SIZE / 2 && 0 <= b <= RETICLE_SIZE / 2
      ensures Point(halfRes - RETICLE_SIZE / 2 + 2 * a, halfRes - RETICLE_SIZE / 2 + 2 * b) in Seeds(halfRes, offsets)
    {
      SeedsCoverNode(halfRes, a, b, offsets);
    }
  }

  lemma SeedsCoverNode(halfRes: int, a: int, b: int, offsets: seq<(int, int)>)
    requires (0, 0) in offsets && 0 <= a <= RETICLE_SIZE / 2 && 0 <= b <= RETICLE_SIZE / 2
    ensures Point(halfRes - RETICLE_SIZE / 2 + 2 * a, halfRes - RETICLE_SIZE / 2 + 2 * b) in Seeds(halfRes, offsets)
  {
    var lo, hi := halfRes - RETICLE_SIZE / 2, halfRes + RETICLE_SIZE / 2;
    assert RETICLE_SIZE / 2 == 20;
    GridNodeQueued(lo, hi, a, b, offsets);
  }

  lemma GridNodeQueued(lo: int, hi: int, a: int, b: int, offsets: seq<(int, int)>)
    requires (0, 0) in offsets && 0 <= a && lo + 2 * a <= hi && 0 <= b && lo + 2 * b <= hi
    ensures Point(lo + 2 * a, lo + 2 * b) in GridSeeds(lo, lo, hi, offsets)
  {
    GridSeedsCover(lo, lo, hi, a, b, Point(lo + 2 * a, lo + 2 * b), offsets);
  }

  /** No seed lies more than 2 pixels (`BFS_SAMPLE_SIZE`) to the right of or below the reticle. */
  lemma SeedsNearReticle(halfRes: int, offsets: seq<(int, int)>)
    requires offsets == NeighbourOffsets()
    ensures forall s :: s in Seeds(halfRes, offsets) ==>
      halfRes - RETICLE_SIZE / 2 <= s.x <= halfRes + RETICLE_SIZE / 2 + BFS_SAMPLE_SIZE &&
      halfRes - RETICLE_SIZE / 2 <= s.y <= halfRes + RETICLE_SIZE / 2 + BFS_SAMPLE_SIZE
  {
    NeighbourOffsetsSmall(offsets);
    var lo, hi := halfRes - RETICLE_SIZE / 2, halfRes + RETICLE_SIZE / 2;
    var grid := GridSeeds(lo, lo, hi, offsets);
    assert Seeds(halfRes, offsets) == grid;
    forall s | s in grid
      ensures lo <= s.x <= hi + 2 && lo <= s.y <= hi + 2
    {
      GridSeedsWithin(lo, lo, hi, s, offsets);
    }
  }

  /** With the constructor's offsets, the neighbours of a block are itself and the eight blocks around it. */
  lemma NeighboursAround(a: Point, b: Point)
    ensures Neighbour(a, b, NeighbourOffsets()) <==>
      (b.x - a.x) in {-BFS_SAMPLE_SIZE, 0, BFS_SAMPLE_SIZE} && (b.y - a.y) in {-BFS_SAMPLE_SIZE, 0, BFS_SAMPLE_SIZE}
  {
    var o := NeighbourOffsets();
    if (b.x - a.x) in {-2, 0, 2} && (b.y - a.y) in {-2, 0, 2} {
      var m := 3 * ((b.x - a.x) / 2 + 1) + ((b.y - a.y) / 2 + 1);
      assert b == Shift(a, o[m]);
    }
  }

  /** Neighbourhood with the constructor's offsets is symmetric. */
  lemma NeighbourSymmetric(a: Point, b: Point)
    requires Neighbour(a, b, NeighbourOffsets())
    ensures Neighbour(b, a, NeighbourOffsets())
  {
    NeighboursAround(a, b);
    NeighboursAround(b, a);
  }
}
